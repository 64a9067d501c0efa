/** Assembling a byte-capped patch from changed files (`buildUnifiedPatch` of src/diff.ts). */
module Patch {
  import opened Options
  import opened Decimal
  import Ordering
  import opened Lines
  import opened Sequences
  import opened Diff
  import opened Hunks
  import opened HunkText

  datatype Status = Added | Modified | Deleted

  datatype Tracking = Tracked | Untracked

  datatype ChangedFile = ChangedFile(
    path: string, status: Status, binary: bool, oversized: bool,
    oldGitMode: Option<string>, newGitMode: Option<string>,
    oldTracking: Option<Tracking>, newTracking: Option<Tracking>,
    renamedFrom: Option<string>, diffOmittedReason: Option<string>,
    oldContent: Option<string>, newContent: Option<string>)

  datatype Omission = Omission(path: string, reason: string)

  datatype PatchResult = PatchResult(patch: string, truncated: bool, omitted: seq<Omission>)

  /** In strictly increasing path order, hence each path at most once. */
  ghost predicate IncreasingPaths(changes: seq<ChangedFile>) {
    forall i, j | 0 <= i < j < |changes| :: Ordering.Before(changes[i].path, changes[j].path)
  }

  // ---------------------------------------------------------------- headers

  /** An optional string that a condition takes for true. */
  predicate Truthy(o: Option<string>) {
    o.Some? && o.value != ""
  }

  function ModeHeaders(c: ChangedFile): seq<string> {
    if c.oldGitMode == c.newGitMode then []
    else if Truthy(c.oldGitMode) && Truthy(c.newGitMode) then
      ["old mode " + c.oldGitMode.value, "new mode " + c.newGitMode.value]
    else if Truthy(c.newGitMode) then ["new file mode " + c.newGitMode.value]
    else if Truthy(c.oldGitMode) then ["deleted file mode " + c.oldGitMode.value]
    else []
  }

  function TrackingName(t: Tracking): string {
    if t.Tracked? then "tracked" else "untracked"
  }

  function TrackingHeaders(c: ChangedFile): seq<string> {
    if c.oldTracking.Some? && c.newTracking.Some? && c.oldTracking != c.newTracking then
      ["# tracking changed from " + TrackingName(c.oldTracking.value) + " to " + TrackingName(c.newTracking.value)]
    else []
  }

  function FileHeader(c: ChangedFile): (r: seq<string>)
    ensures r != []
  {
    var source := c.renamedFrom.GetOr(c.path);
    ["diff --git a/" + source + " b/" + c.path] + ModeHeaders(c) + TrackingHeaders(c)
    + (if Truthy(c.renamedFrom) then ["rename from " + source, "rename to " + c.path] else [])
    + ["--- " + (if c.status.Added? then "/dev/null" else "a/" + source),
       "+++ " + (if c.status.Deleted? then "/dev/null" else "b/" + c.path)]
  }

  // ---------------------------------------------------------------- sections

  predicate DiffOmitted(c: ChangedFile) {
    || Truthy(c.diffOmittedReason)
    || (c.oldContent.None? && !c.status.Added?)
    || (c.newContent.None? && !c.status.Deleted?)
  }

  function OmittedReason(c: ChangedFile): string {
    c.diffOmittedReason.GetOr("content_unavailable")
  }

  function OmittedSection(c: ChangedFile): string {
    Join(["diff --git a/" + c.path + " b/" + c.path] + ModeHeaders(c) + TrackingHeaders(c)
         + ["# Diff omitted for " + c.path + ": " + OmittedReason(c), ""])
  }

  function OldLines(c: ChangedFile): seq<string> {
    SplitLines(if c.status.Added? then "" else c.oldContent.GetOr(""))
  }

  function NewLines(c: ChangedFile): seq<string> {
    SplitLines(if c.status.Deleted? then "" else c.newContent.GetOr(""))
  }

  /** The hunks of some script from `before` to `after`, shortest when the table is used. */
  ghost predicate UnifiedDiff(before: seq<string>, after: seq<string>, body: seq<string>) {
    exists ops, ranges ::
      && Spells(ops, before, after) && Hunking(ops, ranges, |ops|) && body == Render(ops, ranges)
      && (|before| * |after| <= TABLE_CELL_LIMIT ==> |Kept(ops)| == Lcs(before, after, 0, 0))
  }

  ghost predicate IsSection(c: ChangedFile, section: string) {
    if DiffOmitted(c) then section == OmittedSection(c)
    else exists body :: UnifiedDiff(OldLines(c), NewLines(c), body) && section == Join(FileHeader(c) + body + [""])
  }

  method BuildFileDiff(c: ChangedFile) returns (section: string)
    requires !DiffOmitted(c)
    ensures IsSection(c, section) && SectionTurns(c, section)
  {
    var body, ops, ranges := BuildHunks(OldLines(c), NewLines(c));
    assert UnifiedDiff(OldLines(c), NewLines(c), body);
    section := Join(FileHeader(c) + body + [""]);
    SectionReadsBack(c, section);
  }

  // ---------------------------------------------------------------- sections read back

  predicate OneLineText(o: Option<string>) {
    o.Some? ==> OneLine(o.value)
  }

  /** The names and modes put into headers hold no newline. */
  predicate OneLineNames(c: ChangedFile) {
    && OneLine(c.path) && OneLineText(c.renamedFrom)
    && OneLineText(c.oldGitMode) && OneLineText(c.newGitMode)
  }

  lemma HeaderIsOneLine(oldStart: nat, oldCount: nat, newStart: nat, newCount: nat)
    ensures OneLine(Header(oldStart, oldCount, newStart, newCount))
  {
    RangeIsOneLine(oldStart, oldCount);
    RangeIsOneLine(newStart, newCount);
  }

  lemma RangeIsOneLine(start: nat, count: nat)
    ensures OneLine(RangeHeader(start, count))
  {
    NumeralIsOneLine(start);
    NumeralIsOneLine(if start == 0 then 0 else start - 1);
    NumeralIsOneLine(count);
  }

  lemma NumeralIsOneLine(n: nat)
    ensures OneLine(Dec(n))
  {
    assert AllDigits(Dec(n));
  }

  ghost predicate OneLineOps(ops: seq<DiffOp>) {
    forall k | 0 <= k < |ops| :: OneLine(ops[k].line)
  }

  lemma {:induction false} RenderIsOneLine(ops: seq<DiffOp>, ranges: seq<Range>)
    requires OneLineOps(ops)
    requires forall r | 0 <= r < |ranges| :: ranges[r].0 <= ranges[r].1 <= |ops|
    ensures AllOneLine(Render(ops, ranges))
  {
    if ranges != [] {
      var last := ranges[|ranges| - 1];
      RenderIsOneLine(ops, ranges[..|ranges| - 1]);
      HunkIsOneLine(ops[last.0..last.1]);
    }
  }

  lemma HunkIsOneLine(ops: seq<DiffOp>)
    requires OneLineOps(ops)
    ensures AllOneLine(FormatHunk(ops))
  {
    HeaderIsOneLine(FirstOld(ops), |OldSide(ops)|, FirstNew(ops), |NewSide(ops)|);
  }

  lemma {:induction false} OpsAreOneLine(ops: seq<DiffOp>)
    requires AllOneLine(OldSide(ops)) && AllOneLine(NewSide(ops))
    ensures OneLineOps(ops)
  {
    if ops != [] {
      var n := |ops| - 1;
      PrefixSides(ops, n);
      assert ops[..n + 1] == ops;
      SidesOfPrefixAreOneLine(ops, n);
      OpsAreOneLine(ops[..n]);
    }
  }

  lemma SidesOfPrefixAreOneLine(ops: seq<DiffOp>, n: nat)
    requires n < |ops| && AllOneLine(OldSide(ops)) && AllOneLine(NewSide(ops))
    requires OldSide(ops) == OldSide(ops[..n]) + OldPart(ops[n])
    requires NewSide(ops) == NewSide(ops[..n]) + NewPart(ops[n])
    ensures AllOneLine(OldSide(ops[..n])) && AllOneLine(NewSide(ops[..n])) && OneLine(ops[n].line)
  {
    PartsAreOneLine(OldSide(ops[..n]), OldPart(ops[n]));
    PartsAreOneLine(NewSide(ops[..n]), NewPart(ops[n]));
    assert OldPart(ops[n]) == [ops[n].line] || NewPart(ops[n]) == [ops[n].line];
  }

  lemma PartsAreOneLine(a: seq<string>, b: seq<string>)
    requires AllOneLine(a + b)
    ensures AllOneLine(a) && (b != [] ==> OneLine(b[0]))
  {
    forall k | 0 <= k < |a| ensures OneLine(a[k]) {
      assert (a + b)[k] == a[k];
    }
    if b != [] {
      assert (a + b)[|a|] == b[0];
    }
  }

  lemma BodyIsOneLine(before: seq<string>, after: seq<string>, body: seq<string>)
    requires AllOneLine(before) && AllOneLine(after) && UnifiedDiff(before, after, body)
    ensures AllOneLine(body)
    ensures ApplyPatch(before, body) == Some(after)
  {
    var ops, ranges :| Spells(ops, before, after) && Hunking(ops, ranges, |ops|) && body == Render(ops, ranges);
    OpsAreOneLine(ops);
    RenderIsOneLine(ops, ranges);
    PatchApplies(ops, ranges);
  }

  lemma ModesAreOneLine(c: ChangedFile)
    requires OneLineNames(c)
    ensures AllOneLine(ModeHeaders(c))
  {
  }

  lemma TrackingIsOneLine(c: ChangedFile)
    ensures AllOneLine(TrackingHeaders(c))
  {
    if TrackingHeaders(c) != [] {
      var was, now := TrackingName(c.oldTracking.value), TrackingName(c.newTracking.value);
      assert OneLine(was) && OneLine(now) && OneLine(" to ") && OneLine("# tracking changed from ");
      FourOnOneLine("# tracking changed from ", was, " to ", now);
    }
  }

  lemma FourOnOneLine(a: string, b: string, c: string, d: string)
    requires OneLine(a) && OneLine(b) && OneLine(c) && OneLine(d)
    ensures OneLine(a + b + c + d)
  {
  }

  lemma FileHeaderIsOneLine(c: ChangedFile)
    requires OneLineNames(c)
    ensures AllOneLine(FileHeader(c))
  {
    var source := c.renamedFrom.GetOr(c.path);
    ModesAreOneLine(c);
    TrackingIsOneLine(c);
    FourOnOneLine("diff --git a/", source, " b/", c.path);
    FourOnOneLine("rename from ", source, "", "");
    FourOnOneLine("rename to ", c.path, "", "");
    assert ("rename from " + source) + "" + "" == "rename from " + source;
    assert ("rename to " + c.path) + "" + "" == "rename to " + c.path;
    assert OneLine("--- " + (if c.status.Added? then "/dev/null" else "a/" + source));
    assert OneLine("+++ " + (if c.status.Deleted? then "/dev/null" else "b/" + c.path));
  }

  /** The lines of a section's header, whatever its names and modes hold. */
  function HeaderLines(c: ChangedFile): seq<string> {
    Split(Join(FileHeader(c)))
  }

  lemma HeaderLinesAreTheHeader(c: ChangedFile)
    requires OneLineNames(c)
    ensures HeaderLines(c) == FileHeader(c)
  {
    FileHeaderIsOneLine(c);
    SplitOfJoin(FileHeader(c));
  }

  /** The lines turn the old content of the change into its new content; an added file starts from
      nothing, and of a deleted one nothing is left. */
  ghost predicate TurnsOldIntoNew(c: ChangedFile, lines: seq<string>) {
    match c.status
    case Added => c.newContent.Some? && ApplyPatch([], lines) == Some(SplitLines(c.newContent.value))
    case Modified =>
      && c.oldContent.Some? && c.newContent.Some?
      && ApplyPatch(SplitLines(c.oldContent.value), lines) == Some(SplitLines(c.newContent.value))
    case Deleted => c.oldContent.Some? && ApplyPatch(SplitLines(c.oldContent.value), lines) == Some([])
  }

  /** A file's section, split into lines, is its header followed by lines that turn the old file
      into the new one. */
  lemma SectionReadsBack(c: ChangedFile, section: string)
    requires !DiffOmitted(c) && IsSection(c, section)
    ensures HeaderLines(c) <= SplitLines(section)
    ensures TurnsOldIntoNew(c, SplitLines(section)[|HeaderLines(c)|..])
    ensures OneLineNames(c) ==> HeaderLines(c) == FileHeader(c)
  {
    var body :| UnifiedDiff(OldLines(c), NewLines(c), body) && section == Join(FileHeader(c) + body + [""]);
    BodyIsOneLine(OldLines(c), NewLines(c), body);
    assert FileHeader(c) + body + [""] == FileHeader(c) + (body + [""]);
    LinesReadBackAfter(FileHeader(c), body);
    assert (HeaderLines(c) + body)[|HeaderLines(c)|..] == body;
    if OneLineNames(c) {
      HeaderLinesAreTheHeader(c);
    }
  }

  /** The sections that show a diff turn old into new. */
  ghost predicate AllTurn(changes: seq<ChangedFile>, sections: seq<string>) {
    |sections| <= |changes| && forall k | 0 <= k < |sections| && !DiffOmitted(changes[k]) :: SectionTurns(changes[k], sections[k])
  }

  ghost predicate SectionTurns(c: ChangedFile, section: string) {
    HeaderLines(c) <= SplitLines(section) && TurnsOldIntoNew(c, SplitLines(section)[|HeaderLines(c)|..])
  }

  lemma SectionsTurn(changes: seq<ChangedFile>, sections: seq<string>)
    requires SectionsOf(changes, sections)
    ensures AllTurn(changes, sections)
  {
    forall k | 0 <= k < |sections| && !DiffOmitted(changes[k]) ensures SectionTurns(changes[k], sections[k]) {
      assert IsSection(changes[k], sections[k]);
      SectionReadsBack(changes[k], sections[k]);
    }
  }

  // ---------------------------------------------------------------- the byte cap

  function Concat(sections: seq<string>): string {
    if sections == [] then "" else Concat(sections[..|sections| - 1]) + sections[|sections| - 1]
  }

  function Omissions(changes: seq<ChangedFile>): seq<Omission> {
    if changes == [] then []
    else Omissions(changes[..|changes| - 1]) + OmissionOf(changes[|changes| - 1])
  }

  function OmissionOf(c: ChangedFile): seq<Omission> {
    if DiffOmitted(c) then [Omission(c.path, OmittedReason(c))] else []
  }

  function Numeral(n: int): string {
    if n < 0 then "-" + Dec(-n) else Dec(n)
  }

  function Marker(maxPatchBytes: int): string {
    "\n# Patch truncated " + "after reaching " + "maxPatchBytes=" + Numeral(maxPatchBytes) + "\n"
  }

  lemma NumeralIsAscii(n: int)
    ensures Ascii(Numeral(n))
  {
    var digits := if n < 0 then Dec(-n) else Dec(n);
    forall k | 0 <= k < |digits| ensures digits[k] as int < 0x80 {
      assert IsDigit(digits[k]);
    }
  }

  lemma MarkerIsAscii(maxPatchBytes: int)
    ensures Ascii(Marker(maxPatchBytes))
  {
    NumeralIsAscii(maxPatchBytes);
    assert Ascii("\n# Patch truncated ") && Ascii("after reaching ") && Ascii("maxPatchBytes=");
  }

  /** `marker.slice(0, n)`. */
  function Cut(s: string, n: nat): string {
    if n <= |s| then s[..n] else s
  }

  function AtLeastZero(n: int): nat {
    if n < 0 then 0 else n
  }

  /** `marker.slice(0, Math.max(0, maxPatchBytes - bytes of patch))` put after the patch. */
  function CutShort(patch: string, marker: string, maxPatchBytes: int): string {
    patch + Cut(marker, AtLeastZero(maxPatchBytes - ByteLength(patch)))
  }

  lemma CutMarkerFits(patch: string, marker: string, maxPatchBytes: int)
    requires ByteLength(patch) <= AtLeastZero(maxPatchBytes) && Ascii(marker)
    ensures ByteLength(CutShort(patch, marker, maxPatchBytes)) <= AtLeastZero(maxPatchBytes)
  {
    var rest := Cut(marker, AtLeastZero(maxPatchBytes - ByteLength(patch)));
    AsciiByteLength(rest);
    ByteLengthAdds(patch, rest);
  }

  /** The sections are those of the first changes, in order. */
  ghost predicate SectionsOf(changes: seq<ChangedFile>, sections: seq<string>) {
    Pairwise(IsSection, changes, sections)
  }

  /** What the cap makes of the sections met: all of them, or all but the last, which would not
      fit, and as much of the marker as does. */
  ghost predicate Capped(r: PatchResult, sections: seq<string>, marker: string, maxPatchBytes: int) {
    if !r.truncated then r.patch == Concat(sections)
    else
      && sections != [] && ByteLength(Concat(sections)) > maxPatchBytes
      && var kept := Concat(sections[..|sections| - 1]);
      ByteLength(kept) <= AtLeastZero(maxPatchBytes) && r.patch == CutShort(kept, marker, maxPatchBytes)
  }

  lemma PushSection(changes: seq<ChangedFile>, sections: seq<string>, section: string)
    requires SectionsOf(changes, sections) && |sections| < |changes|
    requires IsSection(changes[|sections|], section)
    ensures SectionsOf(changes, sections + [section])
  {
    PushPair(IsSection, changes, sections, section);
  }

  lemma PushOmission(changes: seq<ChangedFile>, n: nat)
    requires n < |changes|
    ensures Omissions(changes[..n + 1]) == Omissions(changes[..n]) + OmissionOf(changes[n])
  {
    assert changes[..n + 1][..n] == changes[..n];
  }

  lemma PushText(sections: seq<string>, section: string)
    ensures Concat(sections + [section]) == Concat(sections) + section
    ensures (sections + [section])[..|sections|] == sections
  {
    assert (sections + [section])[..|sections|] == sections;
  }

  method BuildSection(change: ChangedFile) returns (section: string)
    ensures IsSection(change, section)
  {
    if DiffOmitted(change) {
      section := OmittedSection(change);
    } else {
      section := BuildFileDiff(change);
    }
  }

  /** What a patch of changed files is: the sections of the first changes under the cap, with the
      omissions among those changes. */
  ghost predicate IsPatch(changes: seq<ChangedFile>, sections: seq<string>, r: PatchResult, maxPatchBytes: int) {
    && SectionsOf(changes, sections) && Capped(r, sections, Marker(maxPatchBytes), maxPatchBytes)
    && (!r.truncated ==> |sections| == |changes|)
    && r.omitted == Omissions(changes[..|sections|])
    && ByteLength(r.patch) <= AtLeastZero(maxPatchBytes)
  }

  /** The sections met so far all fit. */
  ghost predicate Assembled(changes: seq<ChangedFile>, sections: seq<string>, patch: string, omitted: seq<Omission>,
                            maxPatchBytes: int)
  {
    && SectionsOf(changes, sections) && patch == Concat(sections) && omitted == Omissions(changes[..|sections|])
    && ByteLength(patch) <= AtLeastZero(maxPatchBytes)
  }

  lemma AssembleOne(changes: seq<ChangedFile>, sections: seq<string>, patch: string, omitted: seq<Omission>,
                    maxPatchBytes: int, section: string)
    requires Assembled(changes, sections, patch, omitted, maxPatchBytes)
    requires |sections| < |changes| && IsSection(changes[|sections|], section)
    ensures var more, listed := sections + [section], omitted + OmissionOf(changes[|sections|]);
      if ByteLength(patch + section) <= maxPatchBytes then Assembled(changes, more, patch + section, listed, maxPatchBytes)
      else IsPatch(changes, more, PatchResult(CutShort(patch, Marker(maxPatchBytes), maxPatchBytes), true, listed), maxPatchBytes)
  {
    PushOmission(changes, |sections|);
    PushSection(changes, sections, section);
    PushText(sections, section);
    MarkerIsAscii(maxPatchBytes);
    CutMarkerFits(patch, Marker(maxPatchBytes), maxPatchBytes);
  }

  method BuildUnifiedPatch(changes: seq<ChangedFile>, maxPatchBytes: int)
      returns (r: PatchResult, ghost sections: seq<string>)
    ensures IsPatch(changes, sections, r, maxPatchBytes) && AllTurn(changes, sections)
  {
    var omitted: seq<Omission> := [];
    var patch := "";
    var marker := Marker(maxPatchBytes);
    sections := [];
    for i := 0 to |changes|
      invariant |sections| == i && Assembled(changes, sections, patch, omitted, maxPatchBytes)
    {
      ghost var before := omitted;
      omitted := omitted + OmissionOf(changes[i]);
      var section := BuildSection(changes[i]);
      AssembleOne(changes, sections, patch, before, maxPatchBytes, section);
      sections := sections + [section];
      if ByteLength(patch + section) > maxPatchBytes {
        r := PatchResult(CutShort(patch, marker, maxPatchBytes), true, omitted);
        SectionsTurn(changes, sections);
        return;
      }
      patch := patch + section;
    }
    r := PatchResult(patch, false, omitted);
    SectionsTurn(changes, sections);
  }

  // ---------------------------------------------------------------- omissions of a truncated patch

  lemma {:induction false} OmissionsFrom(changes: seq<ChangedFile>, n: nat)
    requires n <= |changes|
    ensures |Omissions(changes[..n])| <= |Omissions(changes)|
    ensures Omissions(changes[..n]) == Omissions(changes) <==> forall k | n <= k < |changes| :: !DiffOmitted(changes[k])
  {
    if n == |changes| {
      assert changes[..n] == changes;
    } else {
      var m := |changes| - 1;
      OmissionsFrom(changes[..m], n);
      assert changes[..m][..n] == changes[..n];
      LongerDiffers(Omissions(changes[..n]), Omissions(changes[..m]), OmissionOf(changes[m]));
    }
  }

  lemma LongerDiffers(a: seq<Omission>, b: seq<Omission>, more: seq<Omission>)
    requires |a| <= |b|
    ensures |a| <= |b + more| && (a == b + more <==> a == b && more == [])
  {
    assert b + [] == b;
  }

  lemma {:induction false} LongerTextIsLarger(all: seq<string>, m: nat, n: nat)
    requires m <= n <= |all|
    ensures ByteLength(Concat(all[..m])) <= ByteLength(Concat(all[..n]))
  {
    if m < n {
      LongerTextIsLarger(all, m, n - 1);
      assert all[..n][..n - 1] == all[..n - 1];
      ByteLengthAdds(Concat(all[..n - 1]), all[n - 1]);
    }
  }

  lemma {:induction false} FirstSectionCounts(sections: seq<string>)
    requires sections != [] && sections[0] != ""
    ensures ByteLength(Concat(sections)) > 0
  {
    if |sections| > 1 {
      FirstSectionCounts(sections[..|sections| - 1]);
      ByteLengthAdds(Concat(sections[..|sections| - 1]), sections[|sections| - 1]);
    } else {
      assert Concat(sections) == "" + sections[0];
    }
  }

  lemma SectionIsText(c: ChangedFile, section: string)
    requires IsSection(c, section)
    ensures section != ""
  {
    if DiffOmitted(c) {
      LinesAreText(["diff --git a/" + c.path + " b/" + c.path] + ModeHeaders(c) + TrackingHeaders(c)
                   + ["# Diff omitted for " + c.path + ": " + OmittedReason(c), ""]);
    } else {
      var body :| UnifiedDiff(OldLines(c), NewLines(c), body) && section == Join(FileHeader(c) + body + [""]);
      LinesAreText(FileHeader(c) + body + [""]);
    }
  }

  lemma LinesAreText(lines: seq<string>)
    requires lines != [] && lines[0] != ""
    ensures Join(lines) != ""
  {
  }

  /** What a patch has met but for the last section fits. */
  lemma KeptFits(changes: seq<ChangedFile>, sections: seq<string>, r: PatchResult, maxPatchBytes: int)
    requires IsPatch(changes, sections, r, maxPatchBytes) && |sections| > 1
    ensures ByteLength(Concat(sections[..|sections| - 1])) <= maxPatchBytes
  {
    var n := |sections| - 1;
    assert IsSection(changes[0], sections[0]);
    SectionIsText(changes[0], sections[0]);
    FirstSectionCounts(sections[..n]);
    if !r.truncated {
      WholeIsLarger(sections, n);
      FirstSectionCounts(sections);
    }
  }

  lemma WholeIsLarger(sections: seq<string>, n: nat)
    requires n <= |sections|
    ensures ByteLength(Concat(sections[..n])) <= ByteLength(Concat(sections))
  {
    LongerTextIsLarger(sections, n, |sections|);
    assert sections[..|sections|] == sections;
  }

  /** All of them, if the patch stops at them, do not. */
  lemma StoppedAtMisfit(changes: seq<ChangedFile>, sections: seq<string>, r: PatchResult, maxPatchBytes: int)
    requires IsPatch(changes, sections, r, maxPatchBytes) && |sections| < |changes|
    ensures ByteLength(Concat(sections)) > maxPatchBytes
  {
  }

  /** Where the sections stop fitting. */
  ghost predicate FitsUpTo(all: seq<string>, n: nat, maxPatchBytes: int)
    requires n <= |all|
  {
    && (n > 1 ==> ByteLength(Concat(all[..n - 1])) <= maxPatchBytes)
    && (n < |all| ==> ByteLength(Concat(all[..n])) > maxPatchBytes)
  }

  lemma PatchFitsUpTo(changes: seq<ChangedFile>, all: seq<string>, n: nat, r: PatchResult, maxPatchBytes: int)
    requires |all| == |changes| && n <= |all| && IsPatch(changes, all[..n], r, maxPatchBytes)
    ensures FitsUpTo(all, n, maxPatchBytes)
  {
    if n > 1 {
      KeptFits(changes, all[..n], r, maxPatchBytes);
      assert all[..n][..n - 1] == all[..n - 1];
    }
    if n < |all| {
      StoppedAtMisfit(changes, all[..n], r, maxPatchBytes);
    }
  }

  /** A change is met exactly when the sections before it fit. */
  lemma MetIff(all: seq<string>, n: nat, maxPatchBytes: int, k: nat)
    requires n <= |all| && FitsUpTo(all, n, maxPatchBytes) && 0 < k < |all|
    ensures k < n <==> ByteLength(Concat(all[..k])) <= maxPatchBytes
  {
    if k < n {
      LongerTextIsLarger(all, k, n - 1);
    } else {
      LongerTextIsLarger(all, n, k);
    }
  }

  /** A patch lists every omission exactly when the sections before each omitted change fit. */
  lemma OmittedListsAllIff(changes: seq<ChangedFile>, all: seq<string>, n: nat, r: PatchResult, maxPatchBytes: int)
    requires SectionsOf(changes, all) && |all| == |changes| && n <= |all|
    requires IsPatch(changes, all[..n], r, maxPatchBytes)
    ensures r.omitted == Omissions(changes) <==>
      forall k | 0 < k < |changes| && DiffOmitted(changes[k]) :: ByteLength(Concat(all[..k])) <= maxPatchBytes
  {
    PatchFitsUpTo(changes, all, n, r, maxPatchBytes);
    assert r.omitted == Omissions(changes[..n]) && (n == 0 ==> changes == []);
    OmissionsFrom(changes, n);
    forall k | 0 < k < |changes| ensures k < n <==> ByteLength(Concat(all[..k])) <= maxPatchBytes {
      MetIff(all, n, maxPatchBytes, k);
    }
  }

  /** The sections of all changes that go on from those a patch has met: there always are some. */
  method SectionsFrom(changes: seq<ChangedFile>, sections: seq<string>) returns (all: seq<string>)
    requires SectionsOf(changes, sections)
    ensures SectionsOf(changes, all) && |all| == |changes| && all[..|sections|] == sections
  {
    all := sections;
    while |all| < |changes|
      invariant SectionsOf(changes, all) && |sections| <= |all| <= |changes| && all[..|sections|] == sections
    {
      var section := BuildSection(changes[|all|]);
      PushSection(changes, all, section);
      all := all + [section];
    }
  }

  lemma FirstOmission(changes: seq<ChangedFile>)
    requires changes != []
    ensures Omissions(changes[..1]) == OmissionOf(changes[0])
  {
    assert changes[..1][..0] == [];
    assert [] + OmissionOf(changes[0]) == OmissionOf(changes[0]);
  }

  /** An input at which omissions are not listed: no bytes allowed and two omitted changes. */
  lemma LaterOmissionsAreNotListed(changes: seq<ChangedFile>, sections: seq<string>, r: PatchResult, maxPatchBytes: int)
    requires IsPatch(changes, sections, r, maxPatchBytes) && maxPatchBytes <= 0
    requires |changes| > 1 && DiffOmitted(changes[0]) && DiffOmitted(changes[1])
    ensures r.truncated && r.omitted == OmissionOf(changes[0])
    ensures r.omitted != Omissions(changes)
  {
    assert IsSection(changes[0], sections[0]);
    SectionIsText(changes[0], sections[0]);
    FirstSectionCounts(sections);
    if |sections| > 1 {
      FirstSectionCounts(sections[..|sections| - 1]);
    }
    OmissionsFrom(changes, |sections|);
    FirstOmission(changes);
  }
}
