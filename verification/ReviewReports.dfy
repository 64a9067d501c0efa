/** What a review delta shows of a comparison report, said on the report's own fields
    (src/git-review-delta.ts). */
module ReviewReports {
  import opened Options
  import opened Lines
  import opened Patch
  import opened GitReviewDelta
  import Utf8

  // ---------------------------------------------------------------- modes

  predicate OctalChar(c: char) {
    '0' <= c <= '7'
  }

  function OctalValue(c: char): int {
    c as int - '0' as int
  }

  /** The text of a mode: that of a link, or `100` and the permission bits in octal. */
  predicate SaysMode(text: string, kind: Kind, bits: int) {
    if kind.Symlink? then text == "120000"
    else
      && |text| == 6 && text[..3] == "100" && OctalChar(text[3]) && OctalChar(text[4]) && OctalChar(text[5])
      && bits == (OctalValue(text[3]) * 8 + OctalValue(text[4])) * 8 + OctalValue(text[5])
  }

  /** A link needs no mode bits; a file needs permission bits and no more. */
  predicate ModeFits(kind: Kind, bits: Option<int>) {
    kind.Symlink? || (bits.Some? && 0 <= bits.value < 512)
  }

  lemma OctalReads(n: nat)
    requires n < 8
    ensures OctalChar(OctalDigit(n)) && OctalValue(OctalDigit(n)) == n
  {
  }

  lemma ModeSays(kind: Kind, bits: Option<int>)
    ensures var r := Mode(Some(kind), bits);
      && (r.Ok? <==> ModeFits(kind, bits)) && (r.Err? ==> r.error == InvalidMode)
      && (r.Ok? ==> r.value.Some? && SaysMode(r.value.value, kind, bits.GetOr(0)))
  {
    if !kind.Symlink? && ModeFits(kind, bits) {
      var b := bits.value;
      OctalReads(b / 64);
      OctalReads(b / 8 % 8);
      OctalReads(b % 8);
      assert b / 8 / 8 == b / 64;
    }
  }

  // ---------------------------------------------------------------- one half of a report

  /** One half of a report: its kind if the path was there, its mode bits, its bytes, and a link's target. */
  datatype Half = Half(kind: Option<Kind>, bits: Option<int>, bytes: Option<seq<Utf8.Byte>>, target: Option<string>)

  function TrackedOld(t: TrackedChange): Half {
    Half(t.oldKind, t.oldMode, t.oldBytes, None)
  }

  function TrackedNew(t: TrackedChange): Half {
    Half(t.newKind, t.newMode, t.newBytes, None)
  }

  /** Of an untracked file's mode only the permission bits count. */
  function UntrackedHalf(s: Option<UntrackedState>): Half {
    match s
    case None => Half(None, None, None, None)
    case Some(u) => Half(Some(u.kind), Some(u.mode % 512), u.content, u.target)
  }

  /** The state is the half of the report. */
  predicate Holds(state: Option<ReviewState>, h: Half, tracking: Tracking) {
    match (state, h.kind)
    case (None, None) => true
    case (Some(s), Some(kind)) =>
      s.kind == kind && s.tracking == tracking && SaysMode(s.mode, kind, h.bits.GetOr(0)) && s.bytes == h.bytes && s.target == h.target
    case _ => false
  }

  /** A report of a tracked path is taken exactly when its status is known, its modes fit, and each half
      that the status calls for is there with its bytes. */
  lemma TrackedHalves(t: TrackedChange)
    ensures TrackedEntry(t).Ok? <==>
      && t.status.Some?
      && (t.oldKind.Some? ==> ModeFits(t.oldKind.value, t.oldMode)) && (t.newKind.Some? ==> ModeFits(t.newKind.value, t.newMode))
      && (t.status != Some(Added) ==> t.oldKind.Some? && t.oldBytes.Some?)
      && (t.status != Some(Deleted) ==> t.newKind.Some? && t.newBytes.Some?)
    ensures TrackedEntry(t).Ok? ==>
      var e := TrackedEntry(t).value;
      e.path == t.path && Some(e.status) == t.status && Holds(e.prior, TrackedOld(t), Tracked) && Holds(e.next, TrackedNew(t), Tracked)
  {
    if t.oldKind.Some? {
      ModeSays(t.oldKind.value, t.oldMode);
    }
    if t.newKind.Some? {
      ModeSays(t.newKind.value, t.newMode);
    }
  }

  /** A state of an untracked path is taken exactly when it is a file or a link with its contents, and
      a mode. */
  predicate StateFits(s: UntrackedState) {
    && !s.kind.Other? && s.mode >= 0
    && (s.kind.File? ==> s.content.Some?) && (s.kind.Symlink? ==> s.target.Some?)
  }

  lemma UntrackedStateHolds(s: Option<UntrackedState>)
    ensures UntrackedReviewState(s).Ok? <==> (s.Some? ==> StateFits(s.value))
    ensures UntrackedReviewState(s).Ok? ==> Holds(UntrackedReviewState(s).value, UntrackedHalf(s), Untracked)
  {
    if s.Some? {
      ModeSays(s.value.kind, Some(s.value.mode % 512));
    }
  }

  lemma UntrackedHalves(u: UntrackedChange)
    ensures UntrackedEntry(u).Ok? <==>
      && u.status.Some? && (u.old_.Some? ==> StateFits(u.old_.value)) && (u.new_.Some? ==> StateFits(u.new_.value))
      && (u.status != Some(Added) ==> u.old_.Some?) && (u.status != Some(Deleted) ==> u.new_.Some?)
    ensures UntrackedEntry(u).Ok? ==>
      var e := UntrackedEntry(u).value;
      && e.path == u.path && Some(e.status) == u.status
      && Holds(e.prior, UntrackedHalf(u.old_), Untracked) && Holds(e.next, UntrackedHalf(u.new_), Untracked)
  {
    UntrackedStateHolds(u.old_);
    UntrackedStateHolds(u.new_);
  }

  // ---------------------------------------------------------------- what is shown

  /** A file whose bytes are no text. */
  predicate BinaryHalf(rt: Runtime, h: Half) {
    h.kind.Some? && !h.kind.value.Symlink? && h.bytes.Some?
    && Utf8.LooksBinary(rt.magic, h.bytes.value, |h.bytes.value| > Utf8.SAMPLE_BYTES)
  }

  /** The text there is to show: a file's bytes decoded, a link's target. */
  function HalfText(rt: Runtime, h: Half): Option<string> {
    if h.kind.None? then None
    else if !h.kind.value.Symlink? then if h.bytes.Some? then Some(rt.decode(h.bytes.value)) else None
    else if h.target.Some? then h.target
    else if h.bytes.Some? then rt.decodeFatal(h.bytes.value)
    else None
  }

  /** A file is measured by its bytes, a link by its target. */
  predicate TooLarge(rt: Runtime, h: Half, maxFileBytes: int) {
    h.kind.Some?
    && if h.kind.value.Symlink? then HalfText(rt, h).Some? && ByteLength(HalfText(rt, h).value) > maxFileBytes
       else !BinaryHalf(rt, h) && h.bytes.Some? && |h.bytes.value| > maxFileBytes
  }

  /** What a change says of one of its sides. */
  predicate Side(rt: Runtime, h: Half, tracking: Tracking, mode: Option<string>, says: Option<Tracking>, content: Option<string>,
                 omitted: bool)
  {
    && (h.kind.None? ==> mode.None? && says.None? && content.None?)
    && (h.kind.Some? ==> mode.Some? && SaysMode(mode.value, h.kind.value, h.bits.GetOr(0)) && says == Some(tracking))
    && (h.kind.Some? && !omitted ==> content.Some? && content == HalfText(rt, h))
    && (omitted ==> content.None?)
  }

  /** What a change says of a half that is there, whatever the other is. */
  predicate SideOf(rt: Runtime, limits: Limits, h: Half, tracking: Tracking, mode: Option<string>, says: Option<Tracking>,
                   content: Option<string>, c: ChangedFile)
  {
    h.kind.Some? ==>
      && Side(rt, h, tracking, mode, says, content, c.diffOmittedReason.Some?)
      && (BinaryHalf(rt, h) ==> c.binary && c.diffOmittedReason.Some?)
      && (TooLarge(rt, h, limits.maxFileBytes) ==> c.oversized && c.diffOmittedReason.Some?)
  }

  /** The change says of both halves of the report what they are. */
  predicate Says(rt: Runtime, limits: Limits, old_: Half, next: Half, tracking: Tracking, c: ChangedFile) {
    && SideOf(rt, limits, old_, tracking, c.oldGitMode, c.oldTracking, c.oldContent, c)
    && SideOf(rt, limits, next, tracking, c.newGitMode, c.newTracking, c.newContent, c)
  }

  /** The change says nothing else: its status is that of the report, a half that is not there has no
      side, and it is binary or oversized only when a half is. */
  predicate SaysOnly(rt: Runtime, limits: Limits, status: Option<Status>, old_: Half, next: Half, tracking: Tracking,
                     c: ChangedFile)
  {
    && Says(rt, limits, old_, next, tracking, c) && Some(c.status) == status
    && Side(rt, old_, tracking, c.oldGitMode, c.oldTracking, c.oldContent, c.diffOmittedReason.Some?)
    && Side(rt, next, tracking, c.newGitMode, c.newTracking, c.newContent, c.diffOmittedReason.Some?)
    && (c.binary <==> BinaryHalf(rt, old_) || BinaryHalf(rt, next))
    && (c.oversized <==> TooLarge(rt, old_, limits.maxFileBytes) || TooLarge(rt, next, limits.maxFileBytes))
  }

  lemma ContentSays(rt: Runtime, state: Option<ReviewState>, h: Half, tracking: Tracking, maxFileBytes: int)
    requires Holds(state, h, tracking) && ReviewContent(rt, state, maxFileBytes).Ok?
    ensures var content := ReviewContent(rt, state, maxFileBytes).value;
      && (content.reason == Some("binary") <==> BinaryHalf(rt, h))
      && (content.reason == Some("oversized") <==> TooLarge(rt, h, maxFileBytes))
      && (content.reason.None? ==> content.text == HalfText(rt, h) && (h.kind.Some? ==> content.text.Some?))
  {
    assert "binary"[0] != "oversized"[0];
  }

  lemma OldSays(rt: Runtime, limits: Limits, m: ReviewEntry, left: int, c: ChangedFile, h: Half, tracking: Tracking)
    requires Shows(rt, limits, m, left, c) && Holds(m.prior, h, tracking)
    ensures SideOf(rt, limits, h, tracking, c.oldGitMode, c.oldTracking, c.oldContent, c)
  {
    ContentSays(rt, m.prior, h, tracking, limits.maxFileBytes);
  }

  lemma NewSays(rt: Runtime, limits: Limits, m: ReviewEntry, left: int, c: ChangedFile, h: Half, tracking: Tracking)
    requires Shows(rt, limits, m, left, c) && Holds(m.next, h, tracking)
    ensures SideOf(rt, limits, h, tracking, c.newGitMode, c.newTracking, c.newContent, c)
  {
    ContentSays(rt, m.next, h, tracking, limits.maxFileBytes);
  }

  lemma LoneSays(rt: Runtime, limits: Limits, m: ReviewEntry, left: int, c: ChangedFile, old_: Half, next: Half,
                 tracking: Tracking)
    requires Shows(rt, limits, m, left, c) && Holds(m.prior, old_, tracking) && Holds(m.next, next, tracking)
    ensures SaysOnly(rt, limits, Some(m.status), old_, next, tracking, c)
  {
    OldSays(rt, limits, m, left, c, old_, tracking);
    NewSays(rt, limits, m, left, c, next, tracking);
    ContentSays(rt, m.prior, old_, tracking, limits.maxFileBytes);
    ContentSays(rt, m.next, next, tracking, limits.maxFileBytes);
  }

  /** The entry that stands for another's path. */
  lemma StandIn(entries: seq<ReviewEntry>, changed: seq<ReviewEntry>, changes: seq<ChangedFile>, e: ReviewEntry) returns (k: nat)
    requires Lists(entries, changed, changes) && e in entries
    ensures k < |changed| && k < |changes| && changed[k].path == e.path == changes[k].path && StandsFor(changed[k], entries)
  {
    var m :| m in changed && m.path == e.path;
    k :| 0 <= k < |changed| && changed[k] == m;
  }

  lemma StandInHalves(entries: seq<ReviewEntry>, m: ReviewEntry, e: ReviewEntry)
    requires StandsFor(m, entries) && e in entries && m.path == e.path
    ensures (e.prior.Some? ==> m.prior == e.prior) && (e.next.Some? ==> m.next == e.next)
    ensures Lone(entries, e) ==> m == e
  {
  }

  /** What a change says, given the entry it shows and the entry of a report that this one stands for. */
  lemma StandInSays(rt: Runtime, limits: Limits, m: ReviewEntry, left: int, c: ChangedFile, e: ReviewEntry, old_: Half,
                    next: Half, tracking: Tracking)
    requires Shows(rt, limits, m, left, c) && Holds(e.prior, old_, tracking) && Holds(e.next, next, tracking)
    requires (e.prior.Some? ==> m.prior == e.prior) && (e.next.Some? ==> m.next == e.next)
    ensures Says(rt, limits, old_, next, tracking, c)
    ensures m == e ==> SaysOnly(rt, limits, Some(e.status), old_, next, tracking, c)
  {
    if old_.kind.Some? {
      OldSays(rt, limits, m, left, c, old_, tracking);
    }
    if next.kind.Some? {
      NewSays(rt, limits, m, left, c, next, tracking);
    }
    if m == e {
      LoneSays(rt, limits, m, left, c, old_, next, tracking);
    }
  }

  /** The entry of a report, in a delta that was built: the change of its path says of each half that is
      there what it is, and nothing else if no other report shares the path. */
  lemma EntryIsShown(rt: Runtime, limits: Limits, entries: seq<ReviewEntry>, changed: seq<ReviewEntry>,
                     changes: seq<ChangedFile>, e: ReviewEntry, old_: Half, next: Half, tracking: Tracking, alone: bool)
    requires Lists(entries, changed, changes) && Budgeted(rt, limits, changed, changes) && e in entries
    requires Holds(e.prior, old_, tracking) && Holds(e.next, next, tracking) && (alone ==> Lone(entries, e))
    ensures Shown(rt, limits, changes, e.path, Some(e.status), old_, next, tracking, alone)
  {
    var k := StandIn(entries, changed, changes, e);
    StandInHalves(entries, changed[k], e);
    ShownAt(rt, limits, changed, changes, k);
    StandInSays(rt, limits, changed[k], limits.maxSnapshotBytes - Retained(changes[..k]), changes[k], e, old_, next, tracking);
  }

  // ---------------------------------------------------------------- whole reports

  /** Some change of the path says of both halves what they are; and nothing else, if no other report
      shares the path. */
  ghost predicate Shown(rt: Runtime, limits: Limits, changes: seq<ChangedFile>, path: string, status: Option<Status>,
                        old_: Half, next: Half, tracking: Tracking, alone: bool)
  {
    exists k ::
      && 0 <= k < |changes| && changes[k].path == path && Says(rt, limits, old_, next, tracking, changes[k])
      && (alone ==> SaysOnly(rt, limits, status, old_, next, tracking, changes[k]))
  }

  /** The paths of all reports. */
  function Paths(tracked: seq<TrackedChange>, untracked: seq<UntrackedChange>): seq<string> {
    seq(|tracked|, k requires 0 <= k < |tracked| => tracked[k].path)
    + seq(|untracked|, k requires 0 <= k < |untracked| => untracked[k].path)
  }

  /** No other report has the path of the one at the index. */
  ghost predicate Alone(paths: seq<string>, i: nat)
    requires i < |paths|
  {
    forall j | 0 <= j < |paths| && j != i :: paths[j] != paths[i]
  }

  lemma EntryPaths(tracked: seq<TrackedChange>, untracked: seq<UntrackedChange>)
    requires Entries(tracked, untracked).Ok?
    ensures var entries, paths := Entries(tracked, untracked).value, Paths(tracked, untracked);
      |entries| == |paths| && forall k | 0 <= k < |paths| :: entries[k].path == paths[k]
  {
  }

  lemma {:induction false} TrackedTaken(s: seq<TrackedChange>)
    ensures TrackedEntries(s).Ok? <==> forall t | t in s :: TrackedEntry(t).Ok?
  {
    if s != [] {
      TrackedTaken(s[1..]);
      assert forall t :: t in s <==> t == s[0] || t in s[1..];
    }
  }

  lemma {:induction false} UntrackedTaken(s: seq<UntrackedChange>)
    ensures UntrackedEntries(s).Ok? <==> forall u | u in s :: UntrackedEntry(u).Ok?
  {
    if s != [] {
      UntrackedTaken(s[1..]);
      assert forall u :: u in s <==> u == s[0] || u in s[1..];
    }
  }

  /** A report is well formed exactly when each of its changes is. */
  lemma EntriesTaken(tracked: seq<TrackedChange>, untracked: seq<UntrackedChange>)
    ensures Entries(tracked, untracked).Ok? <==>
      (forall t | t in tracked :: TrackedEntry(t).Ok?) && forall u | u in untracked :: UntrackedEntry(u).Ok?
  {
    TrackedTaken(tracked);
    UntrackedTaken(untracked);
  }

  /** Tracked entries come first. */
  lemma EntriesAre(tracked: seq<TrackedChange>, untracked: seq<UntrackedChange>)
    requires Entries(tracked, untracked).Ok?
    ensures TrackedEntries(tracked).Ok? && UntrackedEntries(untracked).Ok?
    ensures Entries(tracked, untracked).value == TrackedEntries(tracked).value + UntrackedEntries(untracked).value
  {
  }

  lemma UntrackedAt(tracked: seq<TrackedChange>, untracked: seq<UntrackedChange>, i: nat)
    requires Entries(tracked, untracked).Ok? && i < |untracked|
    ensures |Entries(tracked, untracked).value| == |tracked| + |untracked|
    ensures UntrackedEntry(untracked[i]) == Ok(Entries(tracked, untracked).value[|tracked| + i])
  {
    EntriesAre(tracked, untracked);
    UntrackedEntriesAt(untracked, i);
  }

  lemma UntrackedEntriesAt(untracked: seq<UntrackedChange>, i: nat)
    requires UntrackedEntries(untracked).Ok? && i < |untracked|
    ensures |UntrackedEntries(untracked).value| == |untracked|
    ensures UntrackedEntry(untracked[i]) == Ok(UntrackedEntries(untracked).value[i])
  {
  }

  lemma AloneIsLone(entries: seq<ReviewEntry>, paths: seq<string>, i: nat)
    requires |entries| == |paths| && (forall k | 0 <= k < |paths| :: entries[k].path == paths[k])
    requires i < |paths| && Alone(paths, i)
    ensures Lone(entries, entries[i])
  {
    forall d | d in entries && d.path == entries[i].path ensures d == entries[i] {
      var j :| 0 <= j < |entries| && entries[j] == d;
      assert j == i;
    }
  }

  lemma TrackedIsShown(rt: Runtime, tracked: seq<TrackedChange>, untracked: seq<UntrackedChange>, limits: Limits,
                       changed: seq<ReviewEntry>, changes: seq<ChangedFile>, i: nat)
    requires Entries(tracked, untracked).Ok? && Lists(Entries(tracked, untracked).value, changed, changes)
    requires Budgeted(rt, limits, changed, changes) && i < |tracked|
    ensures var t := tracked[i];
      Shown(rt, limits, changes, t.path, t.status, TrackedOld(t), TrackedNew(t), Tracked, Alone(Paths(tracked, untracked), i))
  {
    var t, entries, paths := tracked[i], Entries(tracked, untracked).value, Paths(tracked, untracked);
    EntryPaths(tracked, untracked);
    TrackedHalves(t);
    if Alone(paths, i) {
      AloneIsLone(entries, paths, i);
    }
    EntryIsShown(rt, limits, entries, changed, changes, entries[i], TrackedOld(t), TrackedNew(t), Tracked, Alone(paths, i));
  }

  lemma UntrackedIsShown(rt: Runtime, tracked: seq<TrackedChange>, untracked: seq<UntrackedChange>, limits: Limits,
                         changed: seq<ReviewEntry>, changes: seq<ChangedFile>, i: nat)
    requires Entries(tracked, untracked).Ok? && Lists(Entries(tracked, untracked).value, changed, changes)
    requires Budgeted(rt, limits, changed, changes) && i < |untracked|
    ensures var u := untracked[i];
      Shown(rt, limits, changes, u.path, u.status, UntrackedHalf(u.old_), UntrackedHalf(u.new_), Untracked,
            Alone(Paths(tracked, untracked), |tracked| + i))
  {
    var u, entries, paths := untracked[i], Entries(tracked, untracked).value, Paths(tracked, untracked);
    var j := |tracked| + i;
    EntryPaths(tracked, untracked);
    UntrackedAt(tracked, untracked, i);
    UntrackedHalves(u);
    if Alone(paths, j) {
      AloneIsLone(entries, paths, j);
    }
    EntryIsShown(rt, limits, entries, changed, changes, entries[j], UntrackedHalf(u.old_), UntrackedHalf(u.new_), Untracked,
                 Alone(paths, j));
  }

  /** Main result: in a delta that was built, every report is shown: its old bytes as the old content,
      its new bytes as the new content, with their modes, whether tracked or not. */
  lemma ReportsAreShown(rt: Runtime, tracked: seq<TrackedChange>, untracked: seq<UntrackedChange>, limits: Limits,
                        changed: seq<ReviewEntry>, changes: seq<ChangedFile>)
    requires Entries(tracked, untracked).Ok? && Lists(Entries(tracked, untracked).value, changed, changes)
    requires Budgeted(rt, limits, changed, changes)
    ensures forall i | 0 <= i < |tracked| :: var t := tracked[i];
      Shown(rt, limits, changes, t.path, t.status, TrackedOld(t), TrackedNew(t), Tracked, Alone(Paths(tracked, untracked), i))
    ensures forall i | 0 <= i < |untracked| :: var u := untracked[i];
      Shown(rt, limits, changes, u.path, u.status, UntrackedHalf(u.old_), UntrackedHalf(u.new_), Untracked,
            Alone(Paths(tracked, untracked), |tracked| + i))
  {
    forall i | 0 <= i < |tracked| ensures var t := tracked[i];
      Shown(rt, limits, changes, t.path, t.status, TrackedOld(t), TrackedNew(t), Tracked, Alone(Paths(tracked, untracked), i))
    {
      TrackedIsShown(rt, tracked, untracked, limits, changed, changes, i);
    }
    forall i | 0 <= i < |untracked| ensures var u := untracked[i];
      Shown(rt, limits, changes, u.path, u.status, UntrackedHalf(u.old_), UntrackedHalf(u.new_), Untracked,
            Alone(Paths(tracked, untracked), |tracked| + i))
    {
      UntrackedIsShown(rt, tracked, untracked, limits, changed, changes, i);
    }
  }

  /** The status that the sides of a change call for. */
  predicate StatusFits(c: ChangedFile) {
    && (c.status.Added? <==> c.oldTracking.None?) && (c.status.Deleted? <==> c.newTracking.None?)
  }

  ghost predicate SinglyReported(paths: seq<string>, path: string) {
    exists i: nat :: i < |paths| && paths[i] == path && Alone(paths, i)
  }

  lemma ShownStatus(rt: Runtime, limits: Limits, m: ReviewEntry, left: int, c: ChangedFile)
    requires Shows(rt, limits, m, left, c) && HasHalf(m) && m.status == HalvesStatus(m.prior, m.next)
    ensures StatusFits(c)
  {
  }

  /** The entry shown at an index: alone in its path, or with the status of its halves. */
  lemma ListedAt(entries: seq<ReviewEntry>, changed: seq<ReviewEntry>, changes: seq<ChangedFile>, k: nat)
    requires Lists(entries, changed, changes) && k < |changes| && forall e | e in entries :: HasHalf(e)
    ensures k < |changed| && changed[k].path == changes[k].path && HasHalf(changed[k])
    ensures Lone(entries, changed[k]) || changed[k].status == HalvesStatus(changed[k].prior, changed[k].next)
  {
    var m := changed[k];
    assert m in changed && StandsFor(m, entries) && HasPath(entries, m.path);
    var e :| e in entries && e.path == m.path;
    assert HasHalf(e);
  }

  /** The status of a change whose path several reports share is that of its merged sides. */
  lemma MergedStatusFits(rt: Runtime, tracked: seq<TrackedChange>, untracked: seq<UntrackedChange>, limits: Limits,
                         changed: seq<ReviewEntry>, changes: seq<ChangedFile>, k: nat)
    requires Entries(tracked, untracked).Ok? && Lists(Entries(tracked, untracked).value, changed, changes)
    requires Budgeted(rt, limits, changed, changes) && k < |changes|
    requires NoClash(Entries(tracked, untracked).value)
    ensures StatusFits(changes[k]) || SinglyReported(Paths(tracked, untracked), changes[k].path)
  {
    var entries, paths := Entries(tracked, untracked).value, Paths(tracked, untracked);
    ListedAt(entries, changed, changes, k);
    if Lone(entries, changed[k]) {
      EntryPaths(tracked, untracked);
      LoneIsAlone(entries, paths, changed[k]);
    } else {
      ShownAt(rt, limits, changed, changes, k);
      ShownStatus(rt, limits, changed[k], limits.maxSnapshotBytes - Retained(changes[..k]), changes[k]);
    }
  }

  lemma LoneIsAlone(entries: seq<ReviewEntry>, paths: seq<string>, e: ReviewEntry)
    requires |entries| == |paths| && (forall k | 0 <= k < |paths| :: entries[k].path == paths[k])
    requires NoClash(entries) && Lone(entries, e) && HasHalf(e)
    ensures SinglyReported(paths, e.path)
  {
    var i: nat :| i < |entries| && entries[i] == e;
    forall j | 0 <= j < |paths| && j != i ensures paths[j] != paths[i] {
      if paths[j] == paths[i] {
        assert entries[j] in entries && entries[j] == e;
        assert Clash(entries[i], entries[j]) && Clash(entries[j], entries[i]);
      }
    }
  }
}
