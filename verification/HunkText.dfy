/** The text of unified hunks, and a reader that applies such text to the old file. */
module HunkText {
  import opened Options
  import opened Decimal
  import opened Diff
  import opened Hunks

  // ---------------------------------------------------------------- printing

  /** The number carried by the first operation that has a line in the old file, or 0. */
  function FirstOld(ops: seq<DiffOp>): nat {
    if ops == [] then 0 else if ops[0].Insert? then FirstOld(ops[1..]) else ops[0].oldLine
  }

  function FirstNew(ops: seq<DiffOp>): nat {
    if ops == [] then 0 else if ops[0].Delete? then FirstNew(ops[1..]) else ops[0].newLine
  }

  function RangeHeader(start: nat, lineCount: nat): string {
    if lineCount == 0 then Dec(if start == 0 then 0 else start - 1) + ",0"
    else if lineCount == 1 then Dec(start)
    else Dec(start) + "," + Dec(lineCount)
  }

  function Header(oldStart: nat, oldCount: nat, newStart: nat, newCount: nat): string {
    "@@ -" + (RangeHeader(oldStart, oldCount) + (" +" + (RangeHeader(newStart, newCount) + " @@")))
  }

  function BodyLine(op: DiffOp): string {
    (if op.Insert? then "+" else if op.Delete? then "-" else " ") + op.line
  }

  function Body(ops: seq<DiffOp>): seq<string> {
    seq(|ops|, k requires 0 <= k < |ops| => BodyLine(ops[k]))
  }

  function FormatHunk(ops: seq<DiffOp>): seq<string> {
    [Header(FirstOld(ops), |OldSide(ops)|, FirstNew(ops), |NewSide(ops)|)] + Body(ops)
  }

  // ---------------------------------------------------------------- reading headers back

  function StripPrefix(prefix: string, s: string): Option<string> {
    if |prefix| <= |s| && s[..|prefix|] == prefix then Some(s[|prefix|..]) else None
  }

  /** A range is `start` for one line and `start,count` otherwise. */
  function ScanRange(s: string): Option<(nat, nat, string)> {
    match ScanNat(s)
    case None => None
    case Some((start, rest)) =>
      if rest == [] || rest[0] != ',' then Some((start, 1, rest))
      else match ScanNat(rest[1..])
        case None => None
        case Some((count, rest')) => Some((start, count, rest'))
  }

  function ParseHeader(line: string): Option<(nat, nat, nat, nat)> {
    match StripPrefix("@@ -", line)
    case None => None
    case Some(a) =>
      match ScanRange(a)
      case None => None
      case Some((oldStart, oldCount, b)) =>
        match StripPrefix(" +", b)
        case None => None
        case Some(c) =>
          match ScanRange(c)
          case None => None
          case Some((newStart, newCount, d)) =>
            if d == " @@" then Some((oldStart, oldCount, newStart, newCount)) else None
  }

  /** An empty range names the line before it. */
  function PrintedStart(start: nat, count: nat): nat {
    if count == 0 && start > 0 then start - 1 else start
  }

  lemma StripOwnPrefix(prefix: string, rest: string)
    ensures StripPrefix(prefix, prefix + rest) == Some(rest)
  {
    assert (prefix + rest)[..|prefix|] == prefix && (prefix + rest)[|prefix|..] == rest;
  }

  lemma ScanRangeHeader(start: nat, count: nat, rest: string)
    requires rest != [] && rest[0] == ' '
    ensures ScanRange(RangeHeader(start, count) + rest) == Some((PrintedStart(start, count), count, rest))
  {
    var first := Dec(PrintedStart(start, count));
    if count == 1 {
      ScanDec(start, rest);
    } else {
      var tail := "," + (Dec(count) + rest);
      assert Dec(0) == "0";
      assert RangeHeader(start, count) + rest == first + tail;
      ScanDec(PrintedStart(start, count), tail);
      assert tail[1..] == Dec(count) + rest;
      ScanDec(count, rest);
    }
  }

  lemma ParseOwnHeader(oldStart: nat, oldCount: nat, newStart: nat, newCount: nat)
    ensures ParseHeader(Header(oldStart, oldCount, newStart, newCount))
      == Some((PrintedStart(oldStart, oldCount), oldCount, PrintedStart(newStart, newCount), newCount))
  {
    var c := RangeHeader(newStart, newCount) + " @@";
    var b := " +" + c;
    var a := RangeHeader(oldStart, oldCount) + b;
    StripOwnPrefix("@@ -", a);
    ScanRangeHeader(oldStart, oldCount, b);
    StripOwnPrefix(" +", c);
    ScanRangeHeader(newStart, newCount, " @@");
  }

  // ---------------------------------------------------------------- applying a patch

  /** A reader half way through a patch: `at` old lines are consumed, `out` is the new file so
      far, and the current hunk still owes that many lines of either file. */
  datatype Reader = Reader(at: nat, out: seq<string>, oldLeft: nat, newLeft: nat)

  function FirstLineIndex(start: nat, count: nat): Option<nat> {
    if count == 0 then Some(start) else if start == 0 then None else Some(start - 1)
  }

  /** A header copies the old lines before the hunk; both of its positions must fit. */
  function OpenHunk(before: seq<string>, r: Reader, line: string): Option<Reader> {
    match ParseHeader(line)
    case None => None
    case Some((oldStart, oldCount, newStart, newCount)) =>
      match (FirstLineIndex(oldStart, oldCount), FirstLineIndex(newStart, newCount))
      case (Some(from), Some(to)) =>
        if !(r.at <= from <= |before|) then None
        else
          var out := r.out + before[r.at..from];
          if |out| != to then None else Some(Reader(from, out, oldCount, newCount))
      case _ => None
  }

  /** A body line must agree with the old file and with the counts of its header. */
  function BodyStep(before: seq<string>, r: Reader, line: string): Option<Reader> {
    if line == [] then None
    else if line[0] == ' ' && r.oldLeft > 0 && r.newLeft > 0 && r.at < |before| && before[r.at] == line[1..] then
      Some(Reader(r.at + 1, r.out + [line[1..]], r.oldLeft - 1, r.newLeft - 1))
    else if line[0] == '-' && r.oldLeft > 0 && r.at < |before| && before[r.at] == line[1..] then
      Some(Reader(r.at + 1, r.out, r.oldLeft - 1, r.newLeft))
    else if line[0] == '+' && r.newLeft > 0 then
      Some(Reader(r.at, r.out + [line[1..]], r.oldLeft, r.newLeft - 1))
    else None
  }

  function ReadLine(before: seq<string>, r: Reader, line: string): Option<Reader> {
    if r.oldLeft == 0 && r.newLeft == 0 then OpenHunk(before, r, line) else BodyStep(before, r, line)
  }

  function ReadLines(before: seq<string>, r: Reader, lines: seq<string>): Option<Reader>
    decreases |lines|
  {
    if lines == [] then Some(r)
    else match ReadLine(before, r, lines[0])
      case None => None
      case Some(r') => ReadLines(before, r', lines[1..])
  }

  /** Applies the lines of a unified diff to a file. */
  function ApplyPatch(before: seq<string>, lines: seq<string>): Option<seq<string>> {
    match ReadLines(before, Reader(0, [], 0, 0), lines)
    case None => None
    case Some(r) =>
      if r.oldLeft == 0 && r.newLeft == 0 && r.at <= |before| then Some(r.out + before[r.at..]) else None
  }

  lemma {:induction false} ReadAppend(before: seq<string>, r: Reader, a: seq<string>, b: seq<string>)
    ensures ReadLines(before, r, a + b)
      == (match ReadLines(before, r, a) case None => None case Some(r') => ReadLines(before, r', b))
    decreases |a|
  {
    if a == [] {
      assert a + b == b;
    } else {
      assert (a + b)[1..] == a[1..] + b;
      match ReadLine(before, r, a[0])
      case None =>
      case Some(r') => ReadAppend(before, r', a[1..], b);
    }
  }

  // ---------------------------------------------------------------- sides of sub-scripts

  lemma {:induction false} SidesAppend(a: seq<DiffOp>, b: seq<DiffOp>)
    ensures OldSide(a + b) == OldSide(a) + OldSide(b) && NewSide(a + b) == NewSide(a) + NewSide(b)
    decreases |b|
  {
    if b == [] {
      assert a + b == a;
    } else {
      var init := b[..|b| - 1];
      assert (a + b)[..|a + b| - 1] == a + init;
      SidesAppend(a, init);
    }
  }

  lemma SidesSplit(ops: seq<DiffOp>, s: nat, e: nat)
    requires s <= e <= |ops|
    ensures OldSide(ops[..e]) == OldSide(ops[..s]) + OldSide(ops[s..e])
    ensures NewSide(ops[..e]) == NewSide(ops[..s]) + NewSide(ops[s..e])
  {
    assert ops[..e] == ops[..s] + ops[s..e];
    SidesAppend(ops[..s], ops[s..e]);
  }

  lemma SideOfOne(op: DiffOp)
    ensures OldSide([op]) == if op.Insert? then [] else [op.line]
    ensures NewSide([op]) == if op.Delete? then [] else [op.line]
  {
    assert [op][..0] == [];
  }

  lemma {:induction false} EqualSides(ops: seq<DiffOp>)
    requires forall k | 0 <= k < |ops| :: ops[k].Equal?
    ensures OldSide(ops) == NewSide(ops)
  {
    if ops != [] {
      EqualSides(ops[..|ops| - 1]);
    }
  }

  // ---------------------------------------------------------------- a hunk reads back

  lemma StartsAt(ops: seq<DiffOp>, s: nat, e: nat)
    requires Numbered(ops) && s <= e <= |ops|
    ensures FirstOld(ops[s..e]) == if OldSide(ops[s..e]) == [] then 0 else |OldSide(ops[..s])| + 1
    ensures FirstNew(ops[s..e]) == if NewSide(ops[s..e]) == [] then 0 else |NewSide(ops[..s])| + 1
    decreases e - s
  {
    if s < e {
      assert NumberedAt(ops, s);
      SuffixSides(ops, s, e);
      PrefixSides(ops, s);
      StartsAt(ops, s + 1, e);
      assert ops[s..e][1..] == ops[s + 1..e];
    }
  }

  function OldPart(op: DiffOp): seq<string> {
    if op.Insert? then [] else [op.line]
  }

  function NewPart(op: DiffOp): seq<string> {
    if op.Delete? then [] else [op.line]
  }

  lemma PrefixSides(ops: seq<DiffOp>, k: nat)
    requires k < |ops|
    ensures OldSide(ops[..k + 1]) == OldSide(ops[..k]) + OldPart(ops[k])
    ensures NewSide(ops[..k + 1]) == NewSide(ops[..k]) + NewPart(ops[k])
  {
    assert ops[..k + 1][..k] == ops[..k];
  }

  lemma SuffixSides(ops: seq<DiffOp>, k: nat, e: nat)
    requires k < e <= |ops|
    ensures OldSide(ops[k..e]) == OldPart(ops[k]) + OldSide(ops[k + 1..e])
    ensures NewSide(ops[k..e]) == NewPart(ops[k]) + NewSide(ops[k + 1..e])
  {
    assert ops[k..e] == [ops[k]] + ops[k + 1..e];
    SidesAppend([ops[k]], ops[k + 1..e]);
    SideOfOne(ops[k]);
  }

  /** The old line of operation k sits after the old lines of the operations before it. */
  lemma OldLineAt(ops: seq<DiffOp>, k: nat)
    requires k < |ops| && !ops[k].Insert?
    ensures |OldSide(ops[..k])| < |OldSide(ops)| && OldSide(ops)[|OldSide(ops[..k])|] == ops[k].line
  {
    PrefixSides(ops, k);
    SidesSplit(ops, k + 1, |ops|);
    assert ops[..|ops|] == ops;
  }

  /** The reader after the first k operations, inside a hunk ending at e. */
  function ReaderAt(ops: seq<DiffOp>, k: nat, e: nat): Reader
    requires k <= e <= |ops|
  {
    Reader(|OldSide(ops[..k])|, NewSide(ops[..k]), |OldSide(ops[k..e])|, |NewSide(ops[k..e])|)
  }

  lemma BodyLineReads(ops: seq<DiffOp>, k: nat, e: nat)
    requires k < e <= |ops|
    ensures ReadLine(OldSide(ops), ReaderAt(ops, k, e), BodyLine(ops[k])) == Some(ReaderAt(ops, k + 1, e))
  {
    ReaderMoves(ops, k, e);
    ReaderAgrees(ops, k, e);
    BodyLineOf(ops[k], OldSide(ops), ReaderAt(ops, k, e), ReaderAt(ops, k + 1, e));
  }

  /** The second reader has taken in the operation's lines. */
  predicate Moves(op: DiffOp, r: Reader, r': Reader) {
    && r.oldLeft >= |OldPart(op)| && r.newLeft >= |NewPart(op)|
    && r' == Reader(r.at + |OldPart(op)|, r.out + NewPart(op), r.oldLeft - |OldPart(op)|, r.newLeft - |NewPart(op)|)
  }

  /** The old file has the operation's old line where the reader is. */
  predicate Agrees(op: DiffOp, before: seq<string>, r: Reader) {
    !op.Insert? ==> r.at < |before| && before[r.at] == op.line
  }

  lemma ReaderMoves(ops: seq<DiffOp>, k: nat, e: nat)
    requires k < e <= |ops|
    ensures Moves(ops[k], ReaderAt(ops, k, e), ReaderAt(ops, k + 1, e))
  {
    PrefixSides(ops, k);
    SuffixSides(ops, k, e);
  }

  lemma ReaderAgrees(ops: seq<DiffOp>, k: nat, e: nat)
    requires k < e <= |ops|
    ensures Agrees(ops[k], OldSide(ops), ReaderAt(ops, k, e))
  {
    if !ops[k].Insert? {
      OldLineAt(ops, k);
    }
  }

  lemma BodyLineOf(op: DiffOp, before: seq<string>, r: Reader, r': Reader)
    requires Moves(op, r, r') && Agrees(op, before, r)
    ensures ReadLine(before, r, BodyLine(op)) == Some(r')
  {
    assert BodyLine(op)[1..] == op.line;
    assert BodyLine(op)[0] == if op.Insert? then '+' else if op.Delete? then '-' else ' ';
    assert r.out + [] == r.out;
  }

  lemma {:induction false} BodyReads(ops: seq<DiffOp>, k: nat, e: nat)
    requires k <= e <= |ops|
    ensures ReadLines(OldSide(ops), ReaderAt(ops, k, e), Body(ops[k..e])) == Some(ReaderAt(ops, e, e))
    decreases e - k
  {
    if k < e {
      BodyLineReads(ops, k, e);
      assert Body(ops[k..e])[0] == BodyLine(ops[k]);
      assert Body(ops[k..e])[1..] == Body(ops[k + 1..e]);
      BodyReads(ops, k + 1, e);
    }
  }

  /** A hunk of a script, read where the previous one stopped, brings the reader to its end. */
  lemma HunkReads(ops: seq<DiffOp>, p: nat, s: nat, e: nat)
    requires Numbered(ops) && p <= s < e <= |ops|
    requires forall k | p <= k < s :: ops[k].Equal?
    requires OldSide(ops[s..e]) == [] ==> OldSide(ops) == []
    requires NewSide(ops[s..e]) == [] ==> NewSide(ops) == []
    ensures ReadLines(OldSide(ops), ReaderAt(ops, p, p), FormatHunk(ops[s..e]))
      == Some(ReaderAt(ops, e, e))
  {
    HeaderOpens(ops, p, s, e);
    assert FormatHunk(ops[s..e])[1..] == Body(ops[s..e]);
    BodyReads(ops, s, e);
  }

  lemma HeaderOpens(ops: seq<DiffOp>, p: nat, s: nat, e: nat)
    requires Numbered(ops) && p <= s < e <= |ops|
    requires forall k | p <= k < s :: ops[k].Equal?
    requires OldSide(ops[s..e]) == [] ==> OldSide(ops) == []
    requires NewSide(ops[s..e]) == [] ==> NewSide(ops) == []
    ensures OpenHunk(OldSide(ops), ReaderAt(ops, p, p), FormatHunk(ops[s..e])[0]) == Some(ReaderAt(ops, s, e))
  {
    var hunk := ops[s..e];
    ParseOwnHeader(FirstOld(hunk), |OldSide(hunk)|, FirstNew(hunk), |NewSide(hunk)|);
    HeaderIndexes(ops, s, e);
    GapCopied(ops, p, s);
    OpenParsed(OldSide(ops), ReaderAt(ops, p, p), FormatHunk(hunk)[0],
               (PrintedStart(FirstOld(hunk), |OldSide(hunk)|), |OldSide(hunk)|,
                PrintedStart(FirstNew(hunk), |NewSide(hunk)|), |NewSide(hunk)|),
               |OldSide(ops[..s])|, |NewSide(ops[..s])|);
  }

  lemma OpenParsed(before: seq<string>, r: Reader, line: string, h: (nat, nat, nat, nat), from: nat, to: nat)
    requires ParseHeader(line) == Some(h)
    requires FirstLineIndex(h.0, h.1) == Some(from) && FirstLineIndex(h.2, h.3) == Some(to)
    requires r.at <= from <= |before| && |r.out + before[r.at..from]| == to
    ensures OpenHunk(before, r, line) == Some(Reader(from, r.out + before[r.at..from], h.1, h.3))
  {
  }

  lemma HeaderIndexes(ops: seq<DiffOp>, s: nat, e: nat)
    requires Numbered(ops) && s < e <= |ops|
    requires OldSide(ops[s..e]) == [] ==> OldSide(ops) == []
    requires NewSide(ops[s..e]) == [] ==> NewSide(ops) == []
    ensures var hunk := ops[s..e];
      && FirstLineIndex(PrintedStart(FirstOld(hunk), |OldSide(hunk)|), |OldSide(hunk)|) == Some(|OldSide(ops[..s])|)
      && FirstLineIndex(PrintedStart(FirstNew(hunk), |NewSide(hunk)|), |NewSide(hunk)|) == Some(|NewSide(ops[..s])|)
  {
    StartsAt(ops, s, e);
    SidesSplit(ops, s, |ops|);
    assert ops[..|ops|] == ops;
  }

  /** Unchanged operations between two hunks are the old lines between them. */
  lemma GapCopied(ops: seq<DiffOp>, p: nat, s: nat)
    requires p <= s <= |ops| && forall k | p <= k < s :: ops[k].Equal?
    ensures |OldSide(ops[..p])| <= |OldSide(ops[..s])| <= |OldSide(ops)| && |NewSide(ops[..s])| <= |NewSide(ops)|
    ensures NewSide(ops[..s]) == NewSide(ops[..p]) + OldSide(ops)[|OldSide(ops[..p])|..|OldSide(ops[..s])|]
  {
    SidesSplit(ops, p, s);
    SidesSplit(ops, s, |ops|);
    assert ops[..|ops|] == ops;
    EqualSides(ops[p..s]);
    assert OldSide(ops)[|OldSide(ops[..p])|..|OldSide(ops[..s])|] == OldSide(ops[p..s]);
  }

  // ---------------------------------------------------------------- whole patches

  function Render(ops: seq<DiffOp>, ranges: seq<Range>): seq<string>
    requires forall r | 0 <= r < |ranges| :: ranges[r].0 <= ranges[r].1 <= |ops|
  {
    if ranges == [] then []
    else Render(ops, ranges[..|ranges| - 1]) + FormatHunk(ops[ranges[|ranges| - 1].0..ranges[|ranges| - 1].1])
  }

  /** A hunk without old lines occurs only when the old file is empty, so `0,0` is exact there;
      likewise for the new file. */
  lemma ZeroCountMeansEmptyFile(ops: seq<DiffOp>, ranges: seq<Range>, r: nat)
    requires Hunking(ops, ranges, |ops|) && r < |ranges|
    ensures OldSide(ops[ranges[r].0..ranges[r].1]) == [] ==> OldSide(ops) == []
    ensures NewSide(ops[ranges[r].0..ranges[r].1]) == [] ==> NewSide(ops) == []
  {
    var (s, e) := ranges[r];
    if 0 < s || e < |ops| {
      PartialHunkHasEqual(ops, ranges, r);
    } else {
      assert ops[s..e] == ops;
    }
  }

  lemma PartialHunkHasEqual(ops: seq<DiffOp>, ranges: seq<Range>, r: nat)
    requires Hunking(ops, ranges, |ops|) && r < |ranges| && (0 < ranges[r].0 || ranges[r].1 < |ops|)
    ensures OldSide(ops[ranges[r].0..ranges[r].1]) != [] && NewSide(ops[ranges[r].0..ranges[r].1]) != []
  {
    var (s, e) := ranges[r];
    if s > 0 {
      NotCoveredInGap(ops, ranges, r, s - 1);
      EdgeIsEqual(ops, ranges, s - 1, s);
      EqualHasSides(ops[s..e], 0);
    } else {
      NotCoveredInGap(ops, ranges, r + 1, e);
      EdgeIsEqual(ops, ranges, e, e - 1);
      EqualHasSides(ops[s..e], e - 1 - s);
    }
  }

  /** The neighbour of an operation outside every hunk is unchanged. */
  lemma EdgeIsEqual(ops: seq<DiffOp>, ranges: seq<Range>, outside: nat, k: nat)
    requires Hunking(ops, ranges, |ops|) && outside < |ops| && k < |ops|
    requires !Covered(ranges, outside) && outside - 1 <= k <= outside + 1
    ensures ops[k].Equal?
  {
    assert !NearBetween(ops, outside, 0, |ops|);
    assert !ChangeAt(ops, k);
  }

  lemma EqualHasSides(ops: seq<DiffOp>, k: nat)
    requires k < |ops| && ops[k].Equal?
    ensures OldSide(ops) != [] && NewSide(ops) != []
  {
    SuffixSides(ops, k, |ops|);
    SidesSplit(ops, k, |ops|);
    assert ops[..|ops|] == ops;
  }

  function JoinHunks(hunks: seq<seq<string>>): seq<string> {
    if hunks == [] then [] else JoinHunks(hunks[..|hunks| - 1]) + hunks[|hunks| - 1]
  }

  function HunkLines(ops: seq<DiffOp>, ranges: seq<Range>): seq<seq<string>>
    requires forall r | 0 <= r < |ranges| :: ranges[r].0 <= ranges[r].1 <= |ops|
  {
    seq(|ranges|, r requires 0 <= r < |ranges| => FormatHunk(ops[ranges[r].0..ranges[r].1]))
  }

  lemma {:induction false} RenderIsJoined(ops: seq<DiffOp>, ranges: seq<Range>)
    requires forall r | 0 <= r < |ranges| :: ranges[r].0 <= ranges[r].1 <= |ops|
    ensures Render(ops, ranges) == JoinHunks(HunkLines(ops, ranges))
  {
    if ranges != [] {
      var front := ranges[..|ranges| - 1];
      RenderIsJoined(ops, front);
      assert HunkLines(ops, ranges)[..|ranges| - 1] == HunkLines(ops, front);
    }
  }

  /** Hunks that each take the reader from one state to the next take it from the first to the last. */
  lemma {:induction false} HunksRead(before: seq<string>, hunks: seq<seq<string>>, states: seq<Reader>)
    requires |states| == |hunks| + 1
    requires forall k | 0 <= k < |hunks| :: ReadLines(before, states[k], hunks[k]) == Some(states[k + 1])
    ensures ReadLines(before, states[0], JoinHunks(hunks)) == Some(states[|hunks|])
  {
    if hunks != [] {
      var n := |hunks| - 1;
      HunksRead(before, hunks[..n], states[..n + 1]);
      ReadAppend(before, states[0], JoinHunks(hunks[..n]), hunks[n]);
    }
  }

  /** The reader after the first n hunks. */
  function StateAfter(ops: seq<DiffOp>, ranges: seq<Range>, n: nat): Reader
    requires n <= |ranges| && forall r | 0 <= r < |ranges| :: ranges[r].0 <= ranges[r].1 <= |ops|
  {
    var p := if n == 0 then 0 else ranges[n - 1].1; ReaderAt(ops, p, p)
  }

  lemma HunkFollows(ops: seq<DiffOp>, ranges: seq<Range>, n: nat)
    requires Numbered(ops) && Hunking(ops, ranges, |ops|) && n < |ranges|
    ensures ReadLines(OldSide(ops), StateAfter(ops, ranges, n), HunkLines(ops, ranges)[n])
      == Some(StateAfter(ops, ranges, n + 1))
  {
    GapIsEqual(ops, ranges, n);
    ZeroCountMeansEmptyFile(ops, ranges, n);
    HunkReads(ops, if n == 0 then 0 else ranges[n - 1].1, ranges[n].0, ranges[n].1);
  }

  /** Reading all hunks brings the reader to the end of the last. */
  lemma RenderReads(ops: seq<DiffOp>, ranges: seq<Range>)
    requires Numbered(ops) && Hunking(ops, ranges, |ops|)
    ensures ReadLines(OldSide(ops), StateAfter(ops, ranges, 0), Render(ops, ranges))
      == Some(StateAfter(ops, ranges, |ranges|))
  {
    var states := seq(|ranges| + 1, n requires 0 <= n <= |ranges| => StateAfter(ops, ranges, n));
    forall n | 0 <= n < |ranges|
      ensures ReadLines(OldSide(ops), states[n], HunkLines(ops, ranges)[n]) == Some(states[n + 1])
    {
      HunkFollows(ops, ranges, n);
    }
    HunksRead(OldSide(ops), HunkLines(ops, ranges), states);
    RenderIsJoined(ops, ranges);
  }

  lemma GapIsEqual(ops: seq<DiffOp>, ranges: seq<Range>, n: nat)
    requires Hunking(ops, ranges, |ops|) && n <= |ranges|
    ensures var p := if n == 0 then 0 else ranges[n - 1].1;
      var s := if n == |ranges| then |ops| else ranges[n].0;
      p <= s <= |ops| && forall k | p <= k < s :: ops[k].Equal?
  {
    var p := if n == 0 then 0 else ranges[n - 1].1;
    var s := if n == |ranges| then |ops| else ranges[n].0;
    forall k | p <= k < s ensures ops[k].Equal? {
      NotCoveredInGap(ops, ranges, n, k);
      EdgeIsEqual(ops, ranges, k, k);
    }
  }

  lemma NotCoveredInGap(ops: seq<DiffOp>, ranges: seq<Range>, n: nat, k: int)
    requires Separated(ops, ranges) && n <= |ranges|
    requires n > 0 ==> ranges[n - 1].1 <= k
    requires n < |ranges| ==> k < ranges[n].0
    ensures !Covered(ranges, k)
  {
  }

  /** The text of the hunks, applied to the old file, gives exactly the new file. */
  lemma PatchApplies(ops: seq<DiffOp>, ranges: seq<Range>)
    requires Numbered(ops) && Hunking(ops, ranges, |ops|)
    ensures ApplyPatch(OldSide(ops), Render(ops, ranges)) == Some(NewSide(ops))
  {
    RenderReads(ops, ranges);
    assert ops[..0] == [];
    var p := if ranges == [] then 0 else ranges[|ranges| - 1].1;
    GapIsEqual(ops, ranges, |ranges|);
    SidesSplit(ops, p, |ops|);
    assert ops[..|ops|] == ops;
    EqualSides(ops[p..]);
    assert OldSide(ops)[|OldSide(ops[..p])|..] == OldSide(ops[p..]);
  }

  /** Equal files give no hunk, different files at least one. */
  lemma NoHunksForEqualFiles(ops: seq<DiffOp>, ranges: seq<Range>, before: seq<string>)
    requires Spells(ops, before, before) && Hunking(ops, ranges, |ops|)
    requires |Kept(ops)| == Lcs(before, before, 0, 0) || KeepsEndsOnly(ops, before, before)
    ensures ranges == []
  {
    if |Kept(ops)| == Lcs(before, before, 0, 0) {
      LcsOfSame(before, 0);
      KeptIsCommon(ops);
      AllKept(ops);
    } else {
      var p: nat, s: nat :| LongestPrefix(before, before, p) && LongestSuffix(before, before, p, s)
        && ShapedAsEnds(ops, p, |before| - p - s, |before| - p - s, s);
    }
    if ranges != [] {
      HunkEdges(ops, ranges, 0);
    }
  }

  lemma {:induction false} LcsOfSame(before: seq<string>, i: nat)
    requires i <= |before|
    ensures Lcs(before, before, i, i) == |before| - i
    decreases |before| - i
  {
    if i < |before| {
      LcsOfSame(before, i + 1);
    }
  }

  lemma {:induction false} AllKept(ops: seq<DiffOp>)
    requires |Kept(ops)| >= |ops|
    ensures |Kept(ops)| == |ops| && forall k | 0 <= k < |ops| :: ops[k].Equal?
  {
    if ops != [] {
      KeptIsAtMost(ops[..|ops| - 1]);
      AllKept(ops[..|ops| - 1]);
    }
  }

  lemma {:induction false} KeptIsAtMost(ops: seq<DiffOp>)
    ensures |Kept(ops)| <= |ops|
  {
    if ops != [] {
      KeptIsAtMost(ops[..|ops| - 1]);
    }
  }

  /** `buildHunks`: the unified text of the difference between two files. */
  method BuildHunks(before: seq<string>, after: seq<string>)
      returns (lines: seq<string>, ghost ops: seq<DiffOp>, ghost ranges: seq<Range>)
    ensures ApplyPatch(before, lines) == Some(after)
    ensures Spells(ops, before, after) && Hunking(ops, ranges, |ops|) && lines == Render(ops, ranges)
    ensures |before| * |after| <= TABLE_CELL_LIMIT ==> |Kept(ops)| == Lcs(before, after, 0, 0)
    ensures before == after ==> lines == []
  {
    var script := DiffLines(before, after);
    var hunks := FindHunks(script);
    lines := FormatHunks(script, hunks);
    ops, ranges := script, hunks;
    PatchApplies(ops, ranges);
    if before == after {
      NoHunksForEqualFiles(ops, ranges, before);
    }
  }

  method FormatHunks(script: seq<DiffOp>, hunks: seq<Range>) returns (lines: seq<string>)
    requires forall r | 0 <= r < |hunks| :: hunks[r].0 <= hunks[r].1 <= |script|
    ensures lines == Render(script, hunks)
  {
    lines := [];
    for r := 0 to |hunks|
      invariant lines == Render(script, hunks[..r])
    {
      assert hunks[..r + 1][..r] == hunks[..r];
      lines := lines + FormatHunk(script[hunks[r].0..hunks[r].1]);
    }
    assert hunks[..|hunks|] == hunks;
  }
}
