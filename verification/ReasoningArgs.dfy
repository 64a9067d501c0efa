/** Reading and writing reasoning settings in agent arguments (src/external-agent-reasoning.ts). */
module ReasoningArgs {
  import opened Options
  import ShellTokens

  datatype Adapter = Claude | Codex

  const KEY := "model_reasoning_effort"

  predicate IsEffort(adapter: Adapter, value: string) {
    || value == "default" || value == "low" || value == "medium" || value == "high" || value == "xhigh" || value == "max"
    || (adapter.Codex? && value == "ultra")
  }

  predicate IsLevel(adapter: Adapter, value: Option<string>) {
    value.Some? && IsEffort(adapter, value.value) && value.value != "default"
  }

  // ---------------------------------------------------------------- text

  predicate StartsWith(s: string, prefix: string) {
    |prefix| <= |s| && s[..|prefix|] == prefix
  }

  /** `s.indexOf("=")`, the length standing for -1. */
  function IndexOfEquals(s: string): (k: nat)
    ensures k <= |s| && '=' !in s[..k] && (k < |s| ==> s[k] == '=')
  {
    if s == [] || s[0] == '=' then 0 else 1 + IndexOfEquals(s[1..])
  }

  function TrimStart(s: string): string {
    if s != [] && ShellTokens.Space(s[0]) then TrimStart(s[1..]) else s
  }

  function TrimEnd(s: string): string {
    if s != [] && ShellTokens.Space(s[|s| - 1]) then TrimEnd(s[..|s| - 1]) else s
  }

  function Trim(s: string): string {
    TrimEnd(TrimStart(s))
  }

  predicate QuotedBy(s: string, quote: char) {
    s != [] && s[0] == quote && s[|s| - 1] == quote
  }

  /** `slice(1, -1)` of a value in matching quotes. */
  function Unquote(s: string): string {
    if QuotedBy(s, '"') || QuotedBy(s, '\'') then if |s| < 2 then "" else s[1..|s| - 1] else s
  }

  // ---------------------------------------------------------------- one setting

  /** A reasoning setting at the front of the arguments, with its value and the tokens it takes. */
  datatype Found = NoSetting | Setting(value: Option<string>, tokens: nat)

  predicate Separate(arg: string) {
    arg == "-c" || arg == "--config"
  }

  function WithoutEquals(s: string): string {
    if s != [] && s[0] == '=' then s[1..] else s
  }

  /** The configuration text an argument that is not a separate flag carries. */
  function Joined(arg: string): Option<string> {
    if StartsWith(arg, "-c") then Some(WithoutEquals(arg[2..]))
    else if StartsWith(arg, "--config=") then Some(arg[9..])
    else None
  }

  /** Does the configuration text set the reasoning effort? */
  predicate SetsEffort(config: string) {
    Trim(config[..IndexOfEquals(config)]) == KEY
  }

  function EffortValue(config: string): Option<string> {
    var k := IndexOfEquals(config);
    if k == |config| then None else Some(Unquote(Trim(config[k + 1..])))
  }

  /** The setting at the front. Only the first two arguments matter. */
  function Look(adapter: Adapter, args: seq<string>): (f: Found)
    requires args != []
    ensures f.Setting? ==> 1 <= f.tokens <= 2 && f.tokens <= |args|
  {
    var arg := args[0];
    if adapter.Claude? then
      if arg == "--effort" then
        if |args| > 1 && !StartsWith(args[1], "-") then Setting(Some(args[1]), 2) else Setting(None, 1)
      else if StartsWith(arg, "--effort=") then Setting(Some(arg[9..]), 1)
      else NoSetting
    else if Separate(arg) then
      if |args| > 1 && SetsEffort(args[1]) then Setting(EffortValue(args[1]), 2) else NoSetting
    else if Joined(arg).Some? && SetsEffort(Joined(arg).value) then Setting(EffortValue(Joined(arg).value), 1)
    else NoSetting
  }

  // ---------------------------------------------------------------- all settings

  datatype Parsed = Parsed(remaining: seq<string>, levels: seq<string>, malformed: bool, count: nat, removed: nat)

  const NOTHING := Parsed([], [], false, 0, 0)

  /** What one argument or setting adds in front of what the rest gives. */
  function AddArg(arg: string, p: Parsed): Parsed {
    p.(remaining := [arg] + p.remaining)
  }

  function AddSetting(adapter: Adapter, value: Option<string>, tokens: nat, p: Parsed): Parsed {
    Parsed(p.remaining, (if IsLevel(adapter, value) then [value.value] else []) + p.levels,
           p.malformed || !IsLevel(adapter, value), p.count + 1, p.removed + tokens)
  }

  function Parse(adapter: Adapter, args: seq<string>): Parsed
    decreases |args|
  {
    if args == [] then NOTHING
    else
      match Look(adapter, args)
      case NoSetting => AddArg(args[0], Parse(adapter, args[1..]))
      case Setting(value, tokens) => AddSetting(adapter, value, tokens, Parse(adapter, args[tokens..]))
  }

  datatype Reasoning = Absent | Value(level: string) | Conflicting | MalformedOrUnknown

  datatype Warning = IdenticalDuplicates | ConflictingEffort | MalformedOrUnknownEffort

  datatype LiteralReasoningImport = LiteralReasoningImport(
    reasoning: Reasoning, remainingArgs: seq<string>, recognizedSettingCount: nat, removedTokenCount: nat,
    warnings: seq<Warning>)

  predicate Differ(levels: seq<string>) {
    exists k | 0 <= k < |levels| :: levels[k] != levels[0]
  }

  function ReasoningOf(p: Parsed): Reasoning {
    if p.malformed then MalformedOrUnknown
    else if Differ(p.levels) then Conflicting
    else if p.levels == [] then Absent
    else Value(p.levels[0])
  }

  function WarningsOf(p: Parsed): seq<Warning> {
    (if p.malformed then [MalformedOrUnknownEffort] else [])
    + (if Differ(p.levels) then [ConflictingEffort] else [])
    + (if !p.malformed && |p.levels| > 1 && !Differ(p.levels) then [IdenticalDuplicates] else [])
  }

  function ImportOf(p: Parsed): LiteralReasoningImport {
    LiteralReasoningImport(ReasoningOf(p), p.remaining, p.count, p.removed, WarningsOf(p))
  }

  // ---------------------------------------------------------------- the parser as the source loops

  /** What has been read so far, put before what the rest gives. */
  function Before(a: Parsed, b: Parsed): Parsed {
    Parsed(a.remaining + b.remaining, a.levels + b.levels, a.malformed || b.malformed, a.count + b.count,
           a.removed + b.removed)
  }

  lemma ReadArg(a: Parsed, arg: string, b: Parsed)
    ensures Before(a, AddArg(arg, b)) == Before(a.(remaining := a.remaining + [arg]), b)
  {
    assert a.remaining + ([arg] + b.remaining) == (a.remaining + [arg]) + b.remaining;
  }

  function TakeSetting(adapter: Adapter, a: Parsed, value: Option<string>, tokens: nat): Parsed {
    Parsed(a.remaining, if IsLevel(adapter, value) then a.levels + [value.value] else a.levels,
           a.malformed || !IsLevel(adapter, value), a.count + 1, a.removed + tokens)
  }

  lemma ReadSetting(adapter: Adapter, a: Parsed, value: Option<string>, tokens: nat, b: Parsed)
    ensures Before(a, AddSetting(adapter, value, tokens, b)) == Before(TakeSetting(adapter, a, value, tokens), b)
  {
    if IsLevel(adapter, value) {
      assert a.levels + ([value.value] + b.levels) == (a.levels + [value.value]) + b.levels;
    } else {
      assert [] + b.levels == b.levels;
    }
  }

  lemma ManyLevels(levels: seq<string>)
    ensures |set l | l in levels| > 1 <==> Differ(levels)
    ensures |set l | l in levels| == 0 <==> levels == []
  {
    var distinct := set l | l in levels;
    assert levels == [] || levels[0] in distinct;
    if Differ(levels) {
      var k :| 0 <= k < |levels| && levels[k] != levels[0];
      assert {levels[0], levels[k]} <= distinct;
      SmallerSet({levels[0], levels[k]}, distinct);
    } else if levels != [] {
      assert distinct == {levels[0]};
    }
  }

  lemma SmallerSet(a: set<string>, b: set<string>)
    requires a <= b
    ensures |a| <= |b|
  {
    assert b == a + (b - a);
  }

  /** What has been read after one more argument or setting. */
  function TakeOne(adapter: Adapter, a: Parsed, args: seq<string>): Parsed
    requires args != []
  {
    match Look(adapter, args)
    case NoSetting => a.(remaining := a.remaining + [args[0]])
    case Setting(value, tokens) => TakeSetting(adapter, a, value, tokens)
  }

  function TokensTaken(adapter: Adapter, args: seq<string>): (n: nat)
    requires args != []
    ensures 1 <= n <= |args|
  {
    match Look(adapter, args)
    case NoSetting => 1
    case Setting(_, tokens) => tokens
  }

  lemma ReadOne(adapter: Adapter, a: Parsed, args: seq<string>)
    requires args != []
    ensures Before(a, Parse(adapter, args))
      == Before(TakeOne(adapter, a, args), Parse(adapter, args[TokensTaken(adapter, args)..]))
  {
    match Look(adapter, args)
    case NoSetting => ReadArg(a, args[0], Parse(adapter, args[1..]));
    case Setting(value, tokens) => ReadSetting(adapter, a, value, tokens, Parse(adapter, args[tokens..]));
  }

  method ReadArgs(adapter: Adapter, args: seq<string>) returns (p: Parsed)
    ensures p == Parse(adapter, args)
  {
    p := NOTHING;
    var i := 0;
    assert args[0..] == args;
    NothingBefore(Parse(adapter, args));
    while i < |args|
      invariant 0 <= i <= |args|
      invariant Before(p, Parse(adapter, args[i..])) == Parse(adapter, args)
      decreases |args| - i
    {
      ReadOne(adapter, p, args[i..]);
      var next := i + TokensTaken(adapter, args[i..]);
      assert args[i..][next - i..] == args[next..];
      p := TakeOne(adapter, p, args[i..]);
      i := next;
    }
    assert p == Before(p, NOTHING);
  }

  lemma NothingBefore(p: Parsed)
    ensures Before(NOTHING, p) == p
  {
    assert [] + p.remaining == p.remaining && [] + p.levels == p.levels;
  }

  /** `parseLiteralReasoning`. */
  method ParseLiteralReasoning(adapter: Adapter, args: seq<string>) returns (r: LiteralReasoningImport)
    ensures r == ImportOf(Parse(adapter, args))
  {
    var p := ReadArgs(adapter, args);
    var distinct := set l | l in p.levels;
    ManyLevels(p.levels);
    var warnings: seq<Warning> := [];
    if p.malformed {
      warnings := warnings + [MalformedOrUnknownEffort];
    }
    if |distinct| > 1 {
      warnings := warnings + [ConflictingEffort];
    }
    if !p.malformed && |distinct| == 1 && |p.levels| > 1 {
      warnings := warnings + [IdenticalDuplicates];
    }
    var reasoning :=
      if p.malformed then MalformedOrUnknown
      else if |distinct| > 1 then Conflicting
      else if |p.levels| > 0 then Value(p.levels[0])
      else Absent;
    r := LiteralReasoningImport(reasoning, p.remaining, p.count, p.removed, warnings);
  }

  // ---------------------------------------------------------------- nothing is lost

  ghost predicate Subsequence(a: seq<string>, b: seq<string>) {
    a == [] || (b != [] && ((a[0] == b[0] && Subsequence(a[1..], b[1..])) || Subsequence(a, b[1..])))
  }

  /** Every argument is either kept, in order, or counted as removed. */
  lemma {:induction false} ParseConserves(adapter: Adapter, args: seq<string>)
    ensures var p := Parse(adapter, args);
      p.removed + |p.remaining| == |args| && Subsequence(p.remaining, args) && |p.levels| <= p.count <= p.removed
    decreases |args|
  {
    if args != [] {
      match Look(adapter, args)
      case NoSetting =>
        ParseConserves(adapter, args[1..]);
      case Setting(value, tokens) =>
        ParseConserves(adapter, args[tokens..]);
        if tokens == 2 {
          assert args[2..] == args[1..][1..];
        }
    }
  }

  // ---------------------------------------------------------------- round trips

  function Encode(adapter: Adapter, effort: string): seq<string> {
    if effort == "default" then []
    else if adapter.Claude? then ["--effort", effort]
    else ["-c", KEY + ("=\"" + (effort + "\""))]
  }

  lemma {:induction false} EqualsAfter(key: string, rest: string)
    requires '=' !in key
    ensures IndexOfEquals(key + ("=" + rest)) == |key|
  {
    var s := key + ("=" + rest);
    if key != [] {
      assert s[1..] == key[1..] + ("=" + rest);
      EqualsAfter(key[1..], rest);
    }
  }

  lemma AssignmentSetsEffort(value: string)
    ensures IndexOfEquals(KEY + ("=" + value)) == |KEY| && SetsEffort(KEY + ("=" + value))
  {
    assert '=' !in KEY;
    EqualsAfter(KEY, value);
    assert (KEY + ("=" + value))[..|KEY|] == KEY;
    assert KEY[0] == 'm' && KEY[|KEY| - 1] == 't';
  }

  lemma QuotedValue(effort: string)
    ensures var value := "\"" + (effort + "\""); Unquote(Trim(value)) == effort
  {
    var value := "\"" + (effort + "\"");
    assert value[0] == '"' && value[|value| - 1] == '"';
    assert value[1..|value| - 1] == effort;
  }

  lemma EncodedSetting(effort: string)
    ensures var config := KEY + ("=\"" + (effort + "\""));
      SetsEffort(config) && EffortValue(config) == Some(effort)
  {
    var value := "\"" + (effort + "\"");
    var config := KEY + ("=\"" + (effort + "\""));
    assert config == KEY + ("=" + value);
    AssignmentSetsEffort(value);
    QuotedValue(effort);
    assert config[|KEY| + 1..] == value;
  }

  lemma LevelIsNoFlag(adapter: Adapter, effort: string)
    requires IsEffort(adapter, effort)
    ensures !StartsWith(effort, "-")
  {
    assert effort[0] != '-';
    assert effort[..1][0] == effort[0];
  }

  /** Reading what was written gives back the effort, and nothing else. */
  lemma EncodeReadsBack(adapter: Adapter, effort: string)
    requires IsEffort(adapter, effort)
    ensures Parse(adapter, Encode(adapter, effort)) ==
      if effort == "default" then NOTHING else Parsed([], [effort], false, 1, 2)
  {
    LevelIsNoFlag(adapter, effort);
    EncodedSetting(effort);
    var args := Encode(adapter, effort);
    if effort != "default" {
      assert args[2..] == [];
      assert Look(adapter, args) == Setting(Some(effort), 2);
      assert [effort] + [] == [effort];
    }
  }

  function NativeReasoningArgs(adapter: Adapter, shared: seq<string>, role: seq<string>, effort: Option<string>): seq<string> {
    match effort
    case None => shared + role
    case Some(e) => Parse(adapter, shared + role).remaining + Encode(adapter, e)
  }

  // ---------------------------------------------------------------- replacing settings

  /** The next argument that is kept. */
  function NextKept(adapter: Adapter, args: seq<string>): Option<string>
    decreases |args|
  {
    if args == [] then None
    else
      match Look(adapter, args)
      case NoSetting => Some(args[0])
      case Setting(_, tokens) => NextKept(adapter, args[tokens..])
  }

  /** Leaving settings out brings a kept separate flag next to a kept effort assignment. */
  predicate JoinsUp(adapter: Adapter, args: seq<string>)
    decreases |args|
  {
    if args == [] || adapter.Claude? then false
    else
      match Look(adapter, args)
      case Setting(_, tokens) => JoinsUp(adapter, args[tokens..])
      case NoSetting =>
        || JoinsUp(adapter, args[1..])
        || (Separate(args[0]) && var next := NextKept(adapter, args[1..]); next.Some? && SetsEffort(next.value))
  }

  lemma {:induction false} FirstKept(adapter: Adapter, args: seq<string>)
    ensures NextKept(adapter, args) ==
      var kept := Parse(adapter, args).remaining; if kept == [] then None else Some(kept[0])
    decreases |args|
  {
    if args != [] {
      match Look(adapter, args)
      case NoSetting =>
      case Setting(_, tokens) => FirstKept(adapter, args[tokens..]);
    }
  }

  /** A kept argument is no setting by itself, whatever now follows it; only a separate flag can
      become one, by an effort assignment that follows. */
  lemma KeptInNewPlace(adapter: Adapter, args: seq<string>, after: seq<string>)
    requires args != [] && Look(adapter, args).NoSetting?
    ensures Look(adapter, [args[0]] + after).NoSetting? <==>
      !(adapter.Codex? && Separate(args[0]) && after != [] && SetsEffort(after[0]))
  {
    assert after == [] || ([args[0]] + after)[1] == after[0];
  }

  function Kept(remaining: seq<string>): Parsed {
    Parsed(remaining, [], false, 0, 0)
  }

  lemma ParseOfKept(adapter: Adapter, args: seq<string>)
    requires args != [] && Look(adapter, args).NoSetting?
    ensures Parse(adapter, args).remaining == [args[0]] + Parse(adapter, args[1..]).remaining
  {
  }

  /** With nothing joined up, an argument kept is plain again in front of the others kept. */
  lemma KeptStaysPlain(adapter: Adapter, args: seq<string>)
    requires args != [] && Look(adapter, args).NoSetting? && !JoinsUp(adapter, args)
    ensures Look(adapter, [args[0]] + Parse(adapter, args[1..]).remaining).NoSetting?
    ensures !JoinsUp(adapter, args[1..])
  {
    FirstKept(adapter, args[1..]);
    KeptInNewPlace(adapter, args, Parse(adapter, args[1..]).remaining);
  }

  /** Reading the kept arguments again. */
  lemma {:induction false} ReadKeptAgain(adapter: Adapter, args: seq<string>)
    requires !JoinsUp(adapter, args)
    ensures Parse(adapter, Parse(adapter, args).remaining) == Kept(Parse(adapter, args).remaining)
    decreases |args|
  {
    if args != [] {
      if Look(adapter, args).Setting? {
        LeftOut(adapter, args);
        ReadKeptAgain(adapter, args[Look(adapter, args).tokens..]);
      } else {
        KeptStaysPlain(adapter, args);
        ReadKeptAgain(adapter, args[1..]);
        ParseOfKept(adapter, args);
        assert Parse(adapter, args).remaining[1..] == Parse(adapter, args[1..]).remaining;
      }
    }
  }

  lemma LeftOut(adapter: Adapter, args: seq<string>)
    requires args != [] && Look(adapter, args).Setting?
    ensures var rest := args[Look(adapter, args).tokens..];
      Parse(adapter, args).remaining == Parse(adapter, rest).remaining && JoinsUp(adapter, args) == JoinsUp(adapter, rest)
  {
  }

  lemma {:induction false} JoinedUpIsRead(adapter: Adapter, args: seq<string>)
    requires JoinsUp(adapter, args)
    ensures Parse(adapter, Parse(adapter, args).remaining).count > 0
    decreases |args|
  {
    match Look(adapter, args)
    case Setting(_, tokens) =>
      JoinedUpIsRead(adapter, args[tokens..]);
    case NoSetting =>
      var kept, rest := Parse(adapter, args).remaining, Parse(adapter, args[1..]).remaining;
      assert kept == [args[0]] + rest && kept[1..] == rest;
      FirstKept(adapter, args[1..]);
      KeptInNewPlace(adapter, args, rest);
      if JoinsUp(adapter, args[1..]) && Look(adapter, kept).NoSetting? {
        JoinedUpIsRead(adapter, args[1..]);
      }
  }

  /** What is left holds no reasoning setting exactly when leaving settings out joined nothing up. */
  lemma LeftoverIsFreeIff(adapter: Adapter, args: seq<string>)
    ensures Parse(adapter, Parse(adapter, args).remaining).count == 0 <==> !JoinsUp(adapter, args)
  {
    if JoinsUp(adapter, args) {
      JoinedUpIsRead(adapter, args);
    } else {
      ReadKeptAgain(adapter, args);
    }
  }

  /** What follows cannot be taken for a value: it is a flag, and no effort assignment. */
  predicate StartsAfresh(more: seq<string>) {
    more != [] ==> StartsWith(more[0], "-") && !SetsEffort(more[0])
  }

  lemma LookAhead(adapter: Adapter, args: seq<string>, more: seq<string>)
    requires args != [] && StartsAfresh(more)
    ensures Look(adapter, args + more) == Look(adapter, args)
  {
    assert (args + more)[0] == args[0];
    if |args| > 1 {
      assert (args + more)[1] == args[1];
    } else if more != [] {
      assert (args + more)[1] == more[0];
    }
  }

  /** Arguments put behind others are read on their own. */
  lemma {:induction false} ParseAppend(adapter: Adapter, args: seq<string>, more: seq<string>)
    requires StartsAfresh(more)
    ensures Parse(adapter, args + more) == Before(Parse(adapter, args), Parse(adapter, more))
    decreases |args|
  {
    if args == [] {
      NothingBefore(Parse(adapter, more));
      assert args + more == more;
    } else {
      LookAhead(adapter, args, more);
      var n := TokensTaken(adapter, args);
      assert (args + more)[n..] == args[n..] + more;
      ParseAppend(adapter, args[n..], more);
      OneBefore(adapter, args, Parse(adapter, args[n..]), Parse(adapter, more));
    }
  }

  /** What the front of the arguments adds to what the rest gives. */
  function AddOne(adapter: Adapter, args: seq<string>, p: Parsed): Parsed
    requires args != []
  {
    match Look(adapter, args)
    case NoSetting => AddArg(args[0], p)
    case Setting(value, tokens) => AddSetting(adapter, value, tokens, p)
  }

  lemma OneBefore(adapter: Adapter, args: seq<string>, p: Parsed, q: Parsed)
    requires args != []
    ensures AddOne(adapter, args, Before(p, q)) == Before(AddOne(adapter, args, p), q)
  {
    assert [args[0]] + (p.remaining + q.remaining) == ([args[0]] + p.remaining) + q.remaining;
    if Look(adapter, args).Setting? {
      var levels := if IsLevel(adapter, Look(adapter, args).value) then [Look(adapter, args).value.value] else [];
      assert levels + (p.levels + q.levels) == (levels + p.levels) + q.levels;
    }
  }

  lemma EncodedStartsAfresh(adapter: Adapter, effort: string)
    ensures StartsAfresh(Encode(adapter, effort))
  {
    if effort != "default" {
      FlagSetsNothing(Encode(adapter, effort)[0]);
    }
  }

  lemma {:induction false} TrimKeepsFirst(s: string)
    requires s != [] && !ShellTokens.Space(s[0])
    ensures TrimStart(s) == s && TrimEnd(s) != "" && TrimEnd(s)[0] == s[0]
  {
    if |s| > 1 && ShellTokens.Space(s[|s| - 1]) {
      TrimKeepsFirst(s[..|s| - 1]);
    }
  }

  lemma ReadEncodedAfter(adapter: Adapter, left: seq<string>, effort: string)
    requires IsEffort(adapter, effort) && effort != "default"
    ensures Parse(adapter, left + Encode(adapter, effort)) == Before(Parse(adapter, left), Parsed([], [effort], false, 1, 2))
  {
    EncodedStartsAfresh(adapter, effort);
    ParseAppend(adapter, left, Encode(adapter, effort));
    EncodeReadsBack(adapter, effort);
  }

  /** Main result: the arguments built for an effort are read back as exactly that effort if and only
      if leaving out old settings joined nothing up. Whatever was joined is read besides it. */
  lemma ReplacedSettingReadsBack(adapter: Adapter, shared: seq<string>, role: seq<string>, effort: string)
    requires IsEffort(adapter, effort) && effort != "default"
    ensures var p := Parse(adapter, NativeReasoningArgs(adapter, shared, role, Some(effort)));
      var left := Parse(adapter, shared + role).remaining;
      && (p.count == 1 <==> !JoinsUp(adapter, shared + role)) && p.count == Parse(adapter, left).count + 1
      && (!JoinsUp(adapter, shared + role) ==> ReasoningOf(p) == Value(effort) && p.remaining == left)
  {
    var left := Parse(adapter, shared + role).remaining;
    ReadEncodedAfter(adapter, left, effort);
    LeftoverIsFreeIff(adapter, shared + role);
    if !JoinsUp(adapter, shared + role) {
      ReadKeptAgain(adapter, shared + role);
      assert !Differ([] + [effort]);
    }
  }

  lemma ClaudeNeverJoinsUp(args: seq<string>)
    ensures !JoinsUp(Claude, args)
  {
  }

  lemma FlagSetsNothing(arg: string)
    requires arg != [] && arg[0] == '-'
    ensures !SetsEffort(arg)
  {
    TrimKeepsFirst(arg[..IndexOfEquals(arg)]);
    assert KEY[0] == 'm';
  }

  /** For Codex, an old setting between a flag and an assignment can join the two. */
  lemma RemovalCanJoinUp(value: string, other: string)
    ensures var args := ["-c", "-c" + (KEY + ("=" + value)), KEY + ("=" + other)];
      JoinsUp(Codex, args) && Parse(Codex, Parse(Codex, args).remaining).count > 0
  {
    var inner := KEY + ("=" + value);
    var last := KEY + ("=" + other);
    var args := ["-c", "-c" + inner, last];
    AssignmentSetsEffort(value);
    AssignmentSetsEffort(other);
    FlagSetsNothing(args[1]);
    assert Look(Codex, args).NoSetting?;
    assert args[1][2..] == inner && inner[0] == 'm';
    assert args[1..] == [args[1], last];
    LooksJoined(args[1..], inner);
    assert args[1..][1..] == [last];
    LooksPlain([last]);
    assert NextKept(Codex, [last]) == Some(last);
    assert NextKept(Codex, args[1..]) == Some(last);
    LeftoverIsFreeIff(Codex, args);
  }

  lemma LooksJoined(args: seq<string>, config: string)
    requires args != [] && args[0] == "-c" + config && config != [] && config[0] != '=' && SetsEffort(config)
    ensures Look(Codex, args) == Setting(EffortValue(config), 1)
  {
    assert args[0][2..] == config && args[0][..2] == "-c";
    assert |args[0]| > 2 && args[0][1] == 'c';
  }

  lemma LooksPlain(args: seq<string>)
    requires args != [] && args[0] != [] && args[0][0] != '-'
    ensures Look(Codex, args).NoSetting?
  {
    assert !StartsWith(args[0], "-c") && !StartsWith(args[0], "--config=") by {
      assert args[0][0] != "-c"[0] && args[0][0] != "--config="[0];
    }
  }

  // ---------------------------------------------------------------- settings among other arguments

  /** What arguments are written from: one that is none of the flags; a configuration of something
      else; or a setting in one of its forms, with the value put in. */
  datatype Piece =
    | Other(arg: string)
    | Unrelated(key: string, text: string)
    | Split(long: bool, style: Style, value: string)
    | Short(equals: bool, style: Style, value: string)
    | Long(style: Style, value: string)

  /** How a configuration writes its key and value: the blanks around each, and the quotes, if any. */
  datatype Style = Style(before: string, after: string, quote: Option<char>)

  predicate Sets(p: Piece) {
    p.Split? || p.Short? || p.Long?
  }

  predicate Blank(s: string) {
    forall k | 0 <= k < |s| :: ShellTokens.Space(s[k])
  }

  /** Blanks are blank, quotes are quotes, and a value without them could not be taken for a quoted or
      a padded one. */
  predicate StyleOk(style: Style, value: string) {
    && Blank(style.before) && Blank(style.after)
    && match style.quote
       case Some(q) => q == '"' || q == '\''
       case None =>
         && value != "" && !ShellTokens.Space(value[0]) && !ShellTokens.Space(value[|value| - 1])
         && !(value[0] in {'"', '\''} && value[0] == value[|value| - 1])
  }

  function InQuotes(style: Style, value: string): string {
    match style.quote
    case Some(q) => [q] + (value + [q])
    case None => value
  }

  function Padded(style: Style, s: string): string {
    style.before + (s + style.after)
  }

  /** The configuration text for a value. */
  function Config(style: Style, value: string): string {
    Padded(style, KEY) + ("=" + Padded(style, InQuotes(style, value)))
  }

  predicate PieceOk(adapter: Adapter, p: Piece) {
    match p
    case Other(arg) =>
      if adapter.Claude? then arg != "--effort" && !StartsWith(arg, "--effort=")
      else arg != "--config" && !StartsWith(arg, "-c") && !StartsWith(arg, "--config=")
    case Unrelated(key, _) =>
      && adapter.Codex? && key != "" && key != KEY && key[0] != '-'
      && forall c | c in key :: c != '=' && !ShellTokens.Space(c)
    case Split(long, style, value) => if adapter.Claude? then long && !StartsWith(value, "-") else StyleOk(style, value)
    case Short(_, style, value) => adapter.Codex? && StyleOk(style, value)
    case Long(style, value) => adapter.Codex? ==> StyleOk(style, value)
  }

  function Write(adapter: Adapter, p: Piece): seq<string> {
    match p
    case Other(arg) => [arg]
    case Unrelated(key, text) => ["-c", key + ("=" + text)]
    case Split(long, style, value) =>
      if adapter.Claude? then ["--effort", value] else [if long then "--config" else "-c", Config(style, value)]
    case Short(equals, style, value) => ["-c" + ((if equals then "=" else "") + Config(style, value))]
    case Long(style, value) => [if adapter.Claude? then "--effort=" + value else "--config=" + Config(style, value)]
  }

  function WriteAll(adapter: Adapter, pieces: seq<Piece>): seq<string> {
    if pieces == [] then [] else Write(adapter, pieces[0]) + WriteAll(adapter, pieces[1..])
  }

  /** The levels each adapter knows. */
  function Levels(adapter: Adapter): set<string> {
    {"low", "medium", "high", "xhigh", "max"} + if adapter.Codex? then {"ultra"} else {}
  }

  /** The arguments of everything that is no setting. */
  function Others(adapter: Adapter, pieces: seq<Piece>): seq<string> {
    if pieces == [] then []
    else (if Sets(pieces[0]) then [] else Write(adapter, pieces[0])) + Others(adapter, pieces[1..])
  }

  /** The values written, in order. */
  function Values(pieces: seq<Piece>): seq<string> {
    if pieces == [] then [] else (if Sets(pieces[0]) then [pieces[0].value] else []) + Values(pieces[1..])
  }

  lemma {:induction false} BlankFront(pad: string, s: string)
    requires Blank(pad) && s != "" && !ShellTokens.Space(s[0])
    ensures TrimStart(pad + s) == s
  {
    if pad == "" {
      assert pad + s == s;
    } else {
      BlankFront(pad[1..], s);
      assert (pad + s)[1..] == pad[1..] + s;
    }
  }

  lemma {:induction false} BlankBack(s: string, pad: string)
    requires Blank(pad) && s != "" && !ShellTokens.Space(s[|s| - 1])
    ensures TrimEnd(s + pad) == s
  {
    if pad == "" {
      assert s + pad == s;
    } else {
      var n := |pad| - 1;
      BlankBack(s, pad[..n]);
      assert (s + pad)[..|s + pad| - 1] == s + pad[..n];
    }
  }

  lemma TrimPadded(style: Style, s: string)
    requires Blank(style.before) && Blank(style.after)
    requires s != "" && !ShellTokens.Space(s[0]) && !ShellTokens.Space(s[|s| - 1])
    ensures Trim(Padded(style, s)) == s
  {
    BlankFront(style.before, s + style.after);
    BlankBack(s, style.after);
  }

  lemma UnquotedValue(style: Style, value: string)
    requires StyleOk(style, value)
    ensures Unquote(InQuotes(style, value)) == value
    ensures var s := InQuotes(style, value); s != "" && !ShellTokens.Space(s[0]) && !ShellTokens.Space(s[|s| - 1])
  {
    var s := InQuotes(style, value);
    if style.quote.Some? {
      assert s[0] == s[|s| - 1] == style.quote.value && s[1..|s| - 1] == value;
    }
  }

  lemma NoEqualsIn(style: Style)
    requires Blank(style.before) && Blank(style.after)
    ensures '=' !in Padded(style, KEY)
  {
    forall k | 0 <= k < |style.before| ensures style.before[k] != '=' {
      assert ShellTokens.Space(style.before[k]);
    }
    forall k | 0 <= k < |style.after| ensures style.after[k] != '=' {
      assert ShellTokens.Space(style.after[k]);
    }
    assert '=' !in KEY;
  }

  lemma ConfigSets(style: Style, value: string)
    requires StyleOk(style, value)
    ensures SetsEffort(Config(style, value)) && EffortValue(Config(style, value)) == Some(value)
    ensures Config(style, value) != "" && Config(style, value)[0] != '='
  {
    var key, text := Padded(style, KEY), Padded(style, InQuotes(style, value));
    var config := Config(style, value);
    NoEqualsIn(style);
    EqualsAfter(key, text);
    assert config[..|key|] == key && config[|key| + 1..] == text;
    assert KEY[0] == 'm' && KEY[|KEY| - 1] == 't';
    TrimPadded(style, KEY);
    UnquotedValue(style, value);
    TrimPadded(style, InQuotes(style, value));
    assert key[0] in key;
  }

  lemma UnrelatedSetsNothing(key: string, text: string)
    requires PieceOk(Codex, Unrelated(key, text))
    ensures !SetsEffort(key + ("=" + text))
  {
    EqualsAfter(key, text);
    assert (key + ("=" + text))[..|key|] == key;
    assert key[0] in key && key[|key| - 1] in key;
  }

  lemma PrefixGone(prefix: string, s: string)
    ensures (prefix + s)[|prefix|..] == s && StartsWith(prefix + s, prefix)
  {
  }

  lemma SplitLooks(flag: string, config: string, value: string, rest: seq<string>)
    requires Separate(flag) && SetsEffort(config) && EffortValue(config) == Some(value)
    ensures Look(Codex, [flag, config] + rest) == Setting(Some(value), 2)
  {
    assert ([flag, config] + rest)[1] == config;
  }

  /** The configuration text of an argument that holds it. */
  lemma JoinedLooks(arg: string, config: string, value: string, rest: seq<string>)
    requires !Separate(arg) && Joined(arg) == Some(config) && SetsEffort(config) && EffortValue(config) == Some(value)
    ensures Look(Codex, [arg] + rest) == Setting(Some(value), 1)
  {
  }

  lemma ShortJoins(equals: bool, config: string)
    requires config != "" && config[0] != '='
    ensures var arg := "-c" + ((if equals then "=" else "") + config);
      !Separate(arg) && Joined(arg) == Some(config)
  {
    var arg := "-c" + ((if equals then "=" else "") + config);
    PrefixGone("-c", (if equals then "=" else "") + config);
    if equals {
      assert ("=" + config)[1..] == config;
    } else {
      assert "" + config == config;
    }
    assert |arg| > 2 && arg[1] == 'c';
  }

  lemma LongJoins(config: string)
    ensures !Separate("--config=" + config) && Joined("--config=" + config) == Some(config)
  {
    PrefixGone("--config=", config);
    assert ("--config=" + config)[1] == '-';
  }

  lemma CodexLooks(p: Piece, rest: seq<string>)
    requires PieceOk(Codex, p) && Sets(p)
    ensures Look(Codex, Write(Codex, p) + rest) == Setting(Some(p.value), |Write(Codex, p)|)
  {
    var config := Config(p.style, p.value);
    ConfigSets(p.style, p.value);
    match p
    case Split(long, _, value) =>
      SplitLooks(if long then "--config" else "-c", config, value, rest);
    case Short(equals, _, value) =>
      ShortJoins(equals, config);
      JoinedLooks(Write(Codex, p)[0], config, value, rest);
    case Long(_, value) =>
      LongJoins(config);
      JoinedLooks(Write(Codex, p)[0], config, value, rest);
  }

  lemma ClaudeLooks(p: Piece, rest: seq<string>)
    requires PieceOk(Claude, p) && Sets(p)
    ensures Look(Claude, Write(Claude, p) + rest) == Setting(Some(p.value), |Write(Claude, p)|)
  {
    var args := Write(Claude, p) + rest;
    match p
    case Split(_, _, value) => assert args[0] == "--effort" && args[1] == value;
    case Long(_, value) =>
      PrefixGone("--effort=", value);
      assert args[0][8] == '=';
  }

  /** What one piece adds. */
  function PieceRead(adapter: Adapter, p: Piece): Parsed {
    if !Sets(p) then Kept(Write(adapter, p))
    else
      var known := p.value in Levels(adapter);
      Parsed([], if known then [p.value] else [], !known, 1, |Write(adapter, p)|)
  }

  lemma KnownLevels(adapter: Adapter, value: string)
    ensures IsLevel(adapter, Some(value)) <==> value in Levels(adapter)
  {
  }

  lemma PieceReads(adapter: Adapter, p: Piece, rest: seq<string>)
    requires PieceOk(adapter, p)
    ensures Parse(adapter, Write(adapter, p) + rest) == Before(PieceRead(adapter, p), Parse(adapter, rest))
  {
    var args := Write(adapter, p) + rest;
    if Sets(p) {
      if adapter.Claude? {
        ClaudeLooks(p, rest);
      } else {
        CodexLooks(p, rest);
      }
      KnownLevels(adapter, p.value);
      assert args[|Write(adapter, p)|..] == rest;
      assert [] + Parse(adapter, rest).remaining == Parse(adapter, rest).remaining;
    } else if p.Other? {
      assert Look(adapter, args).NoSetting?;
      assert args[1..] == rest;
    } else {
      UnrelatedReads(p, rest);
    }
  }

  lemma UnrelatedReads(p: Piece, rest: seq<string>)
    requires p.Unrelated? && PieceOk(Codex, p)
    ensures Parse(Codex, Write(Codex, p) + rest) == Before(Kept(Write(Codex, p)), Parse(Codex, rest))
  {
    var config := p.key + ("=" + p.text);
    var args := Write(Codex, p) + rest;
    UnrelatedSetsNothing(p.key, p.text);
    assert args[0] == "-c" && args[1] == config && args[1..] == [config] + rest && args[1..][1..] == rest;
    LooksPlain(args[1..]);
    assert Look(Codex, args).NoSetting?;
    assert ["-c"] + ([config] + Parse(Codex, rest).remaining) == ["-c", config] + Parse(Codex, rest).remaining;
  }

  /** Of arguments written from settings and others, the others are left, in order, and the levels are
      the values that are known. */
  lemma {:induction false} WrittenRead(adapter: Adapter, pieces: seq<Piece>)
    requires forall p | p in pieces :: PieceOk(adapter, p)
    ensures var p := Parse(adapter, WriteAll(adapter, pieces));
      && p.remaining == Others(adapter, pieces) && p.count == |Values(pieces)|
      && p.malformed == (exists v | v in Values(pieces) :: v !in Levels(adapter))
      && (!p.malformed ==> p.levels == Values(pieces))
      && (forall l :: l in p.levels <==> l in Values(pieces) && l in Levels(adapter))
  {
    if pieces != [] {
      assert pieces[0] in pieces;
      WrittenRead(adapter, pieces[1..]);
      PieceReads(adapter, pieces[0], WriteAll(adapter, pieces[1..]));
      var first := if Sets(pieces[0]) then [pieces[0].value] else [];
      assert forall v :: v in Values(pieces) <==> v in first || v in Values(pieces[1..]);
    }
  }

  ghost predicate SomeUnknown(adapter: Adapter, values: seq<string>) {
    exists v | v in values :: v !in Levels(adapter)
  }

  /** Two different levels. */
  ghost predicate SomeDiffer(adapter: Adapter, values: seq<string>) {
    exists v, w | v in values && w in values :: v in Levels(adapter) && w in Levels(adapter) && v != w
  }

  lemma DifferIff(levels: seq<string>)
    ensures Differ(levels) <==> exists v, w | v in levels && w in levels :: v != w
  {
    if Differ(levels) {
      var k :| 0 <= k < |levels| && levels[k] != levels[0];
      assert levels[0] in levels && levels[k] in levels;
    }
    if v, w :| v in levels && w in levels && v != w {
      var i :| 0 <= i < |levels| && levels[i] == v;
      var j :| 0 <= j < |levels| && levels[j] == w;
      assert levels[i] != levels[0] || levels[j] != levels[0];
    }
  }

  /** What was parsed, in terms of the values. */
  lemma WrittenParsed(adapter: Adapter, pieces: seq<Piece>)
    requires forall p | p in pieces :: PieceOk(adapter, p)
    ensures var p, values := Parse(adapter, WriteAll(adapter, pieces)), Values(pieces);
      && p.malformed == SomeUnknown(adapter, values) && Differ(p.levels) == SomeDiffer(adapter, values)
      && (!p.malformed ==> p.levels == values) && p.remaining == Others(adapter, pieces) && p.count == |values|
  {
    var p := Parse(adapter, WriteAll(adapter, pieces));
    WrittenRead(adapter, pieces);
    DifferIff(p.levels);
  }

  /** The level that an import names, given what was parsed. */
  lemma NamedLevel(adapter: Adapter, p: Parsed, values: seq<string>, level: string)
    requires p.malformed == SomeUnknown(adapter, values) && (!p.malformed ==> p.levels == values)
    ensures ReasoningOf(p) == Value(level) <==> values != [] && level in Levels(adapter) && forall v | v in values :: v == level
  {
    if values != [] && level in Levels(adapter) && (forall v | v in values :: v == level) {
      assert !p.malformed && values[0] in values;
      assert forall k | 0 <= k < |values| :: values[k] in values;
    }
    if ReasoningOf(p) == Value(level) {
      forall v | v in values ensures v == level {
        var k :| 0 <= k < |values| && values[k] == v;
      }
      assert values[0] in values;
    }
  }

  /** Main result: the import names a level exactly when there are settings and all of them name it; it
      tells unknown values from conflicting levels, and duplicates from single settings. */
  lemma WrittenImport(adapter: Adapter, pieces: seq<Piece>, level: string)
    requires forall p | p in pieces :: PieceOk(adapter, p)
    ensures var r, values := ImportOf(Parse(adapter, WriteAll(adapter, pieces))), Values(pieces);
      var unknown, differ := SomeUnknown(adapter, values), SomeDiffer(adapter, values);
      && r.remainingArgs == Others(adapter, pieces) && r.recognizedSettingCount == |values|
      && (r.reasoning == Absent <==> values == [])
      && (r.reasoning == MalformedOrUnknown <==> unknown)
      && (r.reasoning == Conflicting <==> !unknown && differ)
      && (r.reasoning == Value(level) <==> values != [] && level in Levels(adapter) && forall v | v in values :: v == level)
      && (MalformedOrUnknownEffort in r.warnings <==> unknown)
      && (ConflictingEffort in r.warnings <==> differ)
      && (IdenticalDuplicates in r.warnings <==> !unknown && !differ && |values| > 1)
  {
    var p, values := Parse(adapter, WriteAll(adapter, pieces)), Values(pieces);
    WrittenParsed(adapter, pieces);
    NamedLevel(adapter, p, values, level);
  }
}
