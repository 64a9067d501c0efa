/** Workspace capture with reuse of a prior snapshot (`createWorkspaceSnapshot` of src/capture.ts). */
module Snapshots {
  import opened Options
  import Omissions

  datatype EntryType = File | SymbolicLink | Gitlink

  datatype OmittedReason = Binary | Oversized | SnapshotLimit | OutsideWorkspace | Missing | Unreadable

  datatype FileStat = FileStat(size: nat, mtimeMs: int, ctimeMs: int, dev: int, ino: int, mode: int)

  datatype FileSnapshot = FileSnapshot(
    relativePath: string, absolutePath: string, exists_: bool, size: nat, mtimeMs: int,
    ctimeMs: Option<int>, dev: Option<int>, ino: Option<int>, mode: Option<int>,
    entryType: Option<EntryType>, linkTarget: Option<string>, gitObjectId: Option<string>,
    sha256: Option<string>, isBinary: bool, content: Option<string>, omittedReason: Option<OmittedReason>)

  /** What reading a whole file shows. */
  datatype Facts = Facts(sha256: string, isBinary: bool, text: string)

  /** What the file system answers about one discovered path; `Unforeseen` is a failure that none of
      the inner handlers took. */
  datatype Sight =
    | NoStat(fault: Omissions.Fault)
    | Unforeseen(fault: Omissions.Fault)
    | Special
    | Linked(record: Option<FileSnapshot>, report: Option<Omissions.Report>)
    | Regular(stat: FileStat, seam: Option<Omissions.Fault>, verifies: bool, read: Result<Facts, Omissions.Fault>)

  datatype Candidate = Candidate(path: string, absolutePath: string, sight: Sight)

  datatype Limits = Limits(maxFileBytes: int, maxSnapshotBytes: int)

  /** The state of the capture loop. */
  datatype Walk = Walk(files: map<string, FileSnapshot>, omissions: seq<Omissions.Omission>, truncated: bool, bytes: nat)

  // ---------------------------------------------------------------- records

  function Base(c: Candidate, stat: FileStat): FileSnapshot {
    FileSnapshot(c.path, c.absolutePath, true, stat.size, stat.mtimeMs, Some(stat.ctimeMs), Some(stat.dev),
                 Some(stat.ino), Some(stat.mode), Some(File), None, None, None, false, None, None)
  }

  function UnreadableSnapshot(c: Candidate, stat: Option<FileStat>): FileSnapshot {
    match stat
    case Some(s) => Base(c, s).(omittedReason := Some(Unreadable))
    case None =>
      FileSnapshot(c.path, c.absolutePath, true, 0, 0, None, None, None, None, Some(File), None, None, None, false,
                   None, Some(Unreadable))
  }

  predicate ReusableIdentityMatches(r: FileSnapshot, stat: FileStat, absolutePath: string) {
    && r.exists_ && r.omittedReason != Some(Unreadable) && r.entryType == Some(File) && r.sha256.Some?
    && r.absolutePath == absolutePath
    && r.size == stat.size && r.mtimeMs == stat.mtimeMs && r.ctimeMs == Some(stat.ctimeMs)
    && r.dev == Some(stat.dev) && r.ino == Some(stat.ino) && r.mode == Some(stat.mode)
  }

  // ---------------------------------------------------------------- a capture without reuse

  function Reported(w: Walk, r: Omissions.Report): Walk {
    w.(omissions := Omissions.Recorded(w.omissions, r),
       truncated := w.truncated || |w.omissions| >= Omissions.MAX_SNAPSHOT_OMISSIONS)
  }

  /** A failure is reported; unless the entry is gone, a presence record stays. */
  function Failed(w: Walk, c: Candidate, fault: Omissions.Fault, presence: FileSnapshot): Walk {
    var after := Reported(w, Omissions.Report(Omissions.FileEntry, c.path, fault));
    if Omissions.FaultReason(fault).Missing? then after else after.(files := w.files[c.path := presence])
  }

  /** Facts become a record under the current limits and what the walk has used of the budget. */
  function Keep(limits: Limits, c: Candidate, stat: FileStat, facts: Facts, w: Walk): Walk {
    var r := Base(c, stat).(sha256 := Some(facts.sha256), isBinary := facts.isBinary);
    if facts.isBinary then w.(files := w.files[c.path := r.(omittedReason := Some(Binary))])
    else if stat.size > limits.maxFileBytes then w.(files := w.files[c.path := r.(omittedReason := Some(Oversized))])
    else if w.bytes + stat.size > limits.maxSnapshotBytes then
      w.(files := w.files[c.path := r.(omittedReason := Some(SnapshotLimit))])
    else w.(files := w.files[c.path := r.(content := Some(facts.text))], bytes := w.bytes + stat.size)
  }

  /** One discovered path, always read in full. */
  function FreshStep(limits: Limits, c: Candidate, w: Walk): Walk {
    match c.sight
    case NoStat(fault) => Failed(w, c, fault, UnreadableSnapshot(c, None))
    case Unforeseen(fault) => Failed(w, c, fault, UnreadableSnapshot(c, None))
    case Special => w
    case Linked(record, report) =>
      var reported := if report.Some? then Reported(w, report.value) else w;
      if record.Some? then reported.(files := w.files[c.path := record.value]) else reported
    case Regular(stat, seam, _, read) =>
      if seam.Some? then Failed(w, c, seam.value, UnreadableSnapshot(c, Some(stat)))
      else
        match read
        case Err(fault) => Failed(w, c, fault, UnreadableSnapshot(c, Some(stat)))
        case Ok(facts) => Keep(limits, c, stat, facts, w)
  }

  function FreshWalk(limits: Limits, candidates: seq<Candidate>, w: Walk): Walk {
    if candidates == [] then w
    else FreshStep(limits, candidates[|candidates| - 1], FreshWalk(limits, candidates[..|candidates| - 1], w))
  }

  // ---------------------------------------------------------------- when a record may be trusted

  /** The content of a file, by its location and stat identity: equal identity, equal bytes. */
  type World = (string, FileStat) -> Facts

  /** Reads show what the world holds; links are not files. */
  ghost predicate Honest(world: World, c: Candidate) {
    match c.sight
    case Regular(stat, _, _, read) => read.Ok? ==> read.value == world(c.absolutePath, stat)
    case Linked(record, _) =>
      record.Some? ==> record.value.entryType != Some(File) && record.value.content.None?
    case _ => true
  }

  /** A record that a later capture could reuse says what the world holds. */
  ghost predicate Trusted(world: World, path: string, r: FileSnapshot) {
    forall c: Candidate, stat: FileStat
      | c.path == path && ReusableIdentityMatches(r, stat, c.absolutePath) ::
      RecordOf(world(c.absolutePath, stat), c, stat, r)
  }

  predicate RecordOf(facts: Facts, c: Candidate, stat: FileStat, r: FileSnapshot) {
    var plain := Base(c, stat).(sha256 := Some(facts.sha256), isBinary := facts.isBinary);
    if facts.isBinary then r == plain.(omittedReason := Some(Binary))
    else || r == plain.(content := Some(facts.text))
         || r == plain.(omittedReason := Some(Oversized)) || r == plain.(omittedReason := Some(SnapshotLimit))
  }

  ghost predicate AllTrusted(world: World, files: map<string, FileSnapshot>) {
    forall p | p in files :: Trusted(world, p, files[p])
  }

  lemma KeptIsTrusted(world: World, c: Candidate, stat: FileStat, r: FileSnapshot)
    requires RecordOf(world(c.absolutePath, stat), c, stat, r)
    ensures Trusted(world, c.path, r)
  {
    forall d: Candidate, t: FileStat | d.path == c.path && ReusableIdentityMatches(r, t, d.absolutePath)
      ensures RecordOf(world(d.absolutePath, t), d, t, r)
    {
      assert t == stat && d.absolutePath == c.absolutePath;
      assert Base(d, t) == Base(c, stat);
    }
  }

  lemma StepKeepsTrust(world: World, limits: Limits, c: Candidate, w: Walk)
    requires Honest(world, c) && AllTrusted(world, w.files)
    ensures AllTrusted(world, FreshStep(limits, c, w).files)
  {
    var after := FreshStep(limits, c, w).files;
    forall p | p in after ensures Trusted(world, p, after[p]) {
      if p == c.path && c.sight.Regular? && c.sight.seam.None? && c.sight.read.Ok? {
        KeptIsTrusted(world, c, c.sight.stat, after[p]);
      } else if after[p].omittedReason != Some(Unreadable) && p in w.files && after[p] == w.files[p] {
        assert Trusted(world, p, w.files[p]);
      }
    }
  }

  // ---------------------------------------------------------------- the capture loop with reuse

  /** One regular file whose record in the prior snapshot matches and verifies: the walk after it,
      or None when the content has to be read after all. */
  function Reuse(limits: Limits, r: FileSnapshot, c: Candidate, w: Walk): Option<Walk> {
    if r.isBinary then Some(w.(files := w.files[c.path := r]))
    else if r.size > limits.maxFileBytes then
      Some(w.(files := w.files[c.path := r.(omittedReason := Some(Oversized), content := None)]))
    else if w.bytes + r.size > limits.maxSnapshotBytes then
      Some(w.(files := w.files[c.path := r.(omittedReason := Some(SnapshotLimit), content := None)]))
    else if r.content.Some? then Some(w.(files := w.files[c.path := r], bytes := w.bytes + r.size))
    else None
  }

  /** The entry is taken over from the prior snapshot without being read. */
  predicate Reuses(limits: Limits, source: map<string, FileSnapshot>, c: Candidate, w: Walk) {
    && c.sight.Regular? && c.sight.seam.None? && c.sight.verifies && c.path in source
    && ReusableIdentityMatches(source[c.path], c.sight.stat, c.absolutePath)
    && Reuse(limits, source[c.path], c, w).Some?
  }

  /** One discovered path, with a prior snapshot to reuse records from. */
  function ReuseStep(limits: Limits, source: map<string, FileSnapshot>, c: Candidate, w: Walk): Walk {
    if Reuses(limits, source, c, w) then Reuse(limits, source[c.path], c, w).value else FreshStep(limits, c, w)
  }

  function ReuseWalk(limits: Limits, source: map<string, FileSnapshot>, candidates: seq<Candidate>, w: Walk): Walk {
    if candidates == [] then w
    else
      var n := |candidates| - 1;
      ReuseStep(limits, source, candidates[n], ReuseWalk(limits, source, candidates[..n], w))
  }

  /** The entry as a successful read of it would show it. */
  function AsRead(world: World, c: Candidate): Candidate
    requires c.sight.Regular?
  {
    c.(sight := c.sight.(read := Ok(world(c.absolutePath, c.sight.stat))))
  }

  /** What a capture shows of an entry: one that it reuses, as a successful read would. */
  function Shown(world: World, limits: Limits, source: map<string, FileSnapshot>, c: Candidate, w: Walk): Candidate {
    if Reuses(limits, source, c, w) then AsRead(world, c) else c
  }

  function ShownAll(world: World, limits: Limits, source: map<string, FileSnapshot>, candidates: seq<Candidate>, w: Walk)
      : (r: seq<Candidate>)
    ensures |r| == |candidates|
  {
    if candidates == [] then []
    else
      var n := |candidates| - 1;
      ShownAll(world, limits, source, candidates[..n], w)
      + [Shown(world, limits, source, candidates[n], ReuseWalk(limits, source, candidates[..n], w))]
  }

  /** The same entry, save that a read that would have failed behind a verification succeeds. */
  ghost predicate ReadOrVerified(world: World, c: Candidate, shown: Candidate) {
    shown == c || (c.sight.Regular? && c.sight.verifies && c.sight.read.Err? && shown == AsRead(world, c))
  }

  ghost predicate AllReadOrVerified(world: World, candidates: seq<Candidate>, shown: seq<Candidate>) {
    |shown| == |candidates| && forall k | 0 <= k < |candidates| :: ReadOrVerified(world, candidates[k], shown[k])
  }

  /** Whatever verifies can also be read. */
  ghost predicate VerifiedCanBeRead(candidates: seq<Candidate>) {
    forall c | c in candidates && c.sight.Regular? && c.sight.verifies :: c.sight.read.Ok?
  }

  lemma ShownAsTheyAre(world: World, candidates: seq<Candidate>, shown: seq<Candidate>)
    requires AllReadOrVerified(world, candidates, shown) && VerifiedCanBeRead(candidates)
    ensures shown == candidates
  {
    forall k | 0 <= k < |candidates| ensures shown[k] == candidates[k] {
      assert ReadOrVerified(world, candidates[k], shown[k]) && candidates[k] in candidates;
    }
  }

  /** Reusing a trusted record gives exactly what reading the file would. */
  lemma ReuseIsFresh(world: World, limits: Limits, source: map<string, FileSnapshot>, c: Candidate, w: Walk)
    requires Honest(world, c) && AllTrusted(world, source)
    ensures var shown := Shown(world, limits, source, c, w);
      && ReuseStep(limits, source, c, w) == FreshStep(limits, shown, w)
      && Honest(world, shown) && ReadOrVerified(world, c, shown)
  {
    if Reuses(limits, source, c, w) {
      assert Trusted(world, c.path, source[c.path]);
      assert RecordOf(world(c.absolutePath, c.sight.stat), c, c.sight.stat, source[c.path]);
      assert Base(AsRead(world, c), c.sight.stat) == Base(c, c.sight.stat);
    }
  }

  /** Main result: a capture that reuses a trusted snapshot is entry for entry the capture that
      reads everything, whatever the limits of either; where an entry verifies and its read would
      have failed, it is the one in which that read succeeds. And it can be trusted in turn. */
  lemma {:induction false} ReuseWalkIsFresh(world: World, limits: Limits, source: map<string, FileSnapshot>,
                                            candidates: seq<Candidate>, w: Walk)
    requires forall c | c in candidates :: Honest(world, c)
    requires AllTrusted(world, source) && AllTrusted(world, w.files)
    ensures var shown := ShownAll(world, limits, source, candidates, w);
      && ReuseWalk(limits, source, candidates, w) == FreshWalk(limits, shown, w)
      && AllReadOrVerified(world, candidates, shown) && (VerifiedCanBeRead(candidates) ==> shown == candidates)
    ensures AllTrusted(world, ReuseWalk(limits, source, candidates, w).files)
  {
    if candidates != [] {
      var n := |candidates| - 1;
      var c, before := candidates[n], ReuseWalk(limits, source, candidates[..n], w);
      var front, last := ShownAll(world, limits, source, candidates[..n], w), Shown(world, limits, source, c, before);
      ReuseWalkIsFresh(world, limits, source, candidates[..n], w);
      ReuseIsFresh(world, limits, source, c, before);
      StepKeepsTrust(world, limits, last, before);
      ShownPush(world, candidates, front, last);
      assert (front + [last])[..n] == front;
      if VerifiedCanBeRead(candidates) {
        ShownAsTheyAre(world, candidates, front + [last]);
      }
    }
  }

  lemma ShownPush(world: World, candidates: seq<Candidate>, front: seq<Candidate>, last: Candidate)
    requires candidates != [] && AllReadOrVerified(world, candidates[..|candidates| - 1], front)
    requires ReadOrVerified(world, candidates[|candidates| - 1], last)
    ensures AllReadOrVerified(world, candidates, front + [last])
  {
    var n := |candidates| - 1;
    assert forall k | 0 <= k < n :: ReadOrVerified(world, candidates[..n][k], front[k]);
  }

  /** A capture, and which earlier capture of the same root it reuses. */
  datatype Capture = Capture(
    limits: Limits, candidates: seq<Candidate>, discovered: seq<Omissions.Omission>, discoveredTruncated: bool,
    reuse: Option<nat>)

  function Start(c: Capture): Walk {
    Walk(map[], c.discovered, c.discoveredTruncated, 0)
  }

  function Source(c: Capture, earlier: seq<Walk>): map<string, FileSnapshot> {
    if c.reuse.Some? && c.reuse.value < |earlier| then earlier[c.reuse.value].files else map[]
  }

  function Taken(c: Capture, source: map<string, FileSnapshot>): Walk {
    ReuseWalk(c.limits, source, c.candidates, Start(c))
  }

  /** The snapshots of a series of captures. */
  function RunChain(captures: seq<Capture>): (r: seq<Walk>)
    ensures |r| == |captures|
  {
    if captures == [] then []
    else
      var earlier := RunChain(captures[..|captures| - 1]);
      var c := captures[|captures| - 1];
      earlier + [Taken(c, Source(c, earlier))]
  }

  ghost predicate HonestCapture(world: World, c: Capture) {
    forall k | 0 <= k < |c.candidates| :: Honest(world, c.candidates[k])
  }

  /** The walk is the fresh one of what was read or verified, and later captures may trust it. */
  ghost predicate IsFresh(world: World, c: Capture, w: Walk) {
    && AllTrusted(world, w.files)
    && exists shown :: AllReadOrVerified(world, c.candidates, shown) && w == FreshWalk(c.limits, shown, Start(c))
  }

  lemma PlainlyFresh(world: World, c: Capture, w: Walk)
    requires IsFresh(world, c, w) && VerifiedCanBeRead(c.candidates)
    ensures w == FreshWalk(c.limits, c.candidates, Start(c))
  {
    var shown :| AllReadOrVerified(world, c.candidates, shown) && w == FreshWalk(c.limits, shown, Start(c));
    ShownAsTheyAre(world, c.candidates, shown);
  }

  lemma CaptureIsFresh(world: World, c: Capture, source: map<string, FileSnapshot>)
    requires HonestCapture(world, c) && AllTrusted(world, source)
    ensures IsFresh(world, c, Taken(c, source))
  {
    ReuseWalkIsFresh(world, c.limits, source, c.candidates, Start(c));
  }

  lemma SourceIsTrusted(world: World, captures: seq<Capture>, earlier: seq<Walk>, c: Capture)
    requires |earlier| <= |captures| && forall k | 0 <= k < |earlier| :: IsFresh(world, captures[k], earlier[k])
    ensures AllTrusted(world, Source(c, earlier))
  {
    if c.reuse.Some? && c.reuse.value < |earlier| {
      assert IsFresh(world, captures[c.reuse.value], earlier[c.reuse.value]);
    }
  }

  /** Over any chain of captures, each under its own limits, every snapshot is the fresh one. */
  lemma {:induction false} ChainIsFresh(world: World, captures: seq<Capture>)
    requires forall k | 0 <= k < |captures| :: HonestCapture(world, captures[k])
    ensures forall k | 0 <= k < |captures| :: IsFresh(world, captures[k], RunChain(captures)[k])
    ensures forall k | 0 <= k < |captures| && VerifiedCanBeRead(captures[k].candidates) ::
      RunChain(captures)[k] == FreshWalk(captures[k].limits, captures[k].candidates, Start(captures[k]))
  {
    if captures != [] {
      var n := |captures| - 1;
      var front := captures[..n];
      var earlier := RunChain(front);
      assert forall k | 0 <= k < |front| :: front[k] == captures[k];
      ChainIsFresh(world, front);
      SourceIsTrusted(world, front, earlier, captures[n]);
      CaptureIsFresh(world, captures[n], Source(captures[n], earlier));
      PushFresh(world, captures, earlier, Taken(captures[n], Source(captures[n], earlier)));
    }
    forall k | 0 <= k < |captures| && VerifiedCanBeRead(captures[k].candidates)
      ensures RunChain(captures)[k] == FreshWalk(captures[k].limits, captures[k].candidates, Start(captures[k]))
    {
      PlainlyFresh(world, captures[k], RunChain(captures)[k]);
    }
  }

  lemma PushFresh(world: World, captures: seq<Capture>, earlier: seq<Walk>, w: Walk)
    requires captures != [] && |earlier| == |captures| - 1
    requires var front := captures[..|captures| - 1]; forall k | 0 <= k < |earlier| :: IsFresh(world, front[k], earlier[k])
    requires IsFresh(world, captures[|captures| - 1], w)
    ensures forall k | 0 <= k < |captures| :: IsFresh(world, captures[k], (earlier + [w])[k])
  {
    var front := captures[..|captures| - 1];
    forall k | 0 <= k < |captures| ensures IsFresh(world, captures[k], (earlier + [w])[k]) {
      if k < |earlier| {
        assert IsFresh(world, front[k], earlier[k]);
      }
    }
  }

  /** The loop body of `createWorkspaceSnapshot`. */
  method CaptureEntry(limits: Limits, source: map<string, FileSnapshot>, c: Candidate,
                      files: map<string, FileSnapshot>, capturedBytes: nat, ledger: Omissions.OmissionLedger)
      returns (files': map<string, FileSnapshot>, capturedBytes': nat)
    requires ledger.Valid()
    modifies ledger
    ensures ledger.Valid()
    ensures Walk(files', ledger.omissions, ledger.truncated, capturedBytes')
      == ReuseStep(limits, source, c, Walk(files, old(ledger.omissions), old(ledger.truncated), capturedBytes))
  {
    files', capturedBytes' := files, capturedBytes;
    ghost var w := Walk(files, ledger.omissions, ledger.truncated, capturedBytes);
    match c.sight {
      case Special =>
      case NoStat(fault) => files' := CaptureFailure(c, UnreadableSnapshot(c, None), fault, files, ledger, w);
      case Unforeseen(fault) => files' := CaptureFailure(c, UnreadableSnapshot(c, None), fault, files, ledger, w);
      case Linked(record, report) =>
        if report.Some? {
          ledger.Record(report.value.kind, report.value.path, report.value.fault);
        }
        if record.Some? {
          files' := files[c.path := record.value];
        }
      case Regular(stat, seam, verifies, read) =>
        if seam.Some? {
          files' := CaptureFailure(c, UnreadableSnapshot(c, Some(stat)), seam.value, files, ledger, w);
          return;
        }
        var reused := CaptureReused(limits, source, c, files, capturedBytes, w);
        if reused.Some? {
          files', capturedBytes' := reused.value.0, reused.value.1;
          return;
        }
        if read.Err? {
          files' := CaptureFailure(c, UnreadableSnapshot(c, Some(stat)), read.error, files, ledger, w);
          return;
        }
        files', capturedBytes' := CaptureRead(limits, c, stat, read.value, files, capturedBytes, w);
    }
  }

  /** The verified reuse of a prior record, where there is one. */
  method CaptureReused(limits: Limits, source: map<string, FileSnapshot>, c: Candidate, files: map<string, FileSnapshot>,
                       capturedBytes: nat, ghost w: Walk)
      returns (reused: Option<(map<string, FileSnapshot>, nat)>)
    requires c.sight.Regular? && c.sight.seam.None? && w.files == files && w.bytes == capturedBytes
    ensures reused.Some? <==> Reuses(limits, source, c, w)
    ensures reused.Some? ==>
      w.(files := reused.value.0, bytes := reused.value.1) == Reuse(limits, source[c.path], c, w).value
  {
    if c.path in source && ReusableIdentityMatches(source[c.path], c.sight.stat, c.absolutePath) && c.sight.verifies {
      var reusable := source[c.path];
      if reusable.isBinary {
        return Some((files[c.path := reusable], capturedBytes));
      }
      if reusable.size > limits.maxFileBytes {
        return Some((files[c.path := reusable.(omittedReason := Some(Oversized), content := None)], capturedBytes));
      }
      if capturedBytes + reusable.size > limits.maxSnapshotBytes {
        return Some((files[c.path := reusable.(omittedReason := Some(SnapshotLimit), content := None)], capturedBytes));
      }
      if reusable.content.Some? {
        return Some((files[c.path := reusable], capturedBytes + reusable.size));
      }
    }
    reused := None;
  }

  method CaptureFailure(c: Candidate, presence: FileSnapshot, fault: Omissions.Fault, files: map<string, FileSnapshot>,
                        ledger: Omissions.OmissionLedger, ghost w: Walk)
      returns (files': map<string, FileSnapshot>)
    requires ledger.Valid()
    requires w.files == files && w.omissions == ledger.omissions && w.truncated == ledger.truncated
    modifies ledger
    ensures ledger.Valid()
    ensures Walk(files', ledger.omissions, ledger.truncated, w.bytes) == Failed(w, c, fault, presence)
  {
    ledger.Record(Omissions.FileEntry, c.path, fault);
    if Omissions.FaultReason(fault).Missing? {
      return files;
    }
    files' := files[c.path := presence];
  }

  /** What a completed inspection leaves, content being read only when the limits allow it. */
  method CaptureRead(limits: Limits, c: Candidate, stat: FileStat, facts: Facts, files: map<string, FileSnapshot>,
                     capturedBytes: nat, ghost w: Walk)
      returns (files': map<string, FileSnapshot>, capturedBytes': nat)
    requires w.files == files && w.bytes == capturedBytes
    ensures w.(files := files', bytes := capturedBytes') == Keep(limits, c, stat, facts, w)
  {
    capturedBytes' := capturedBytes;
    var contentEligible := stat.size <= limits.maxFileBytes && capturedBytes + stat.size <= limits.maxSnapshotBytes;
    var content := if contentEligible && !facts.isBinary then Some(facts.text) else None;
    var inspected := Base(c, stat).(sha256 := Some(facts.sha256), isBinary := facts.isBinary);
    if facts.isBinary {
      files' := files[c.path := inspected.(omittedReason := Some(Binary))];
    } else if stat.size > limits.maxFileBytes {
      files' := files[c.path := inspected.(omittedReason := Some(Oversized))];
    } else if capturedBytes + stat.size > limits.maxSnapshotBytes {
      files' := files[c.path := inspected.(omittedReason := Some(SnapshotLimit))];
    } else {
      capturedBytes' := capturedBytes + stat.size;
      files' := files[c.path := inspected.(content := content)];
    }
  }

  /** `createWorkspaceSnapshot` after discovery. */
  method CreateWorkspaceSnapshot(limits: Limits, candidates: seq<Candidate>, discovered: seq<Omissions.Omission>,
                                 discoveredTruncated: bool, source: map<string, FileSnapshot>)
      returns (files: map<string, FileSnapshot>, omissions: seq<Omissions.Omission>, truncated: bool,
               capturedBytes: nat)
    requires |discovered| <= Omissions.MAX_SNAPSHOT_OMISSIONS
    ensures Walk(files, omissions, truncated, capturedBytes)
      == ReuseWalk(limits, source, candidates, Walk(map[], discovered, discoveredTruncated, 0))
    ensures |omissions| <= Omissions.MAX_SNAPSHOT_OMISSIONS
  {
    files, capturedBytes := map[], 0;
    var ledger := new Omissions.OmissionLedger(discovered, discoveredTruncated);
    ghost var start := Walk(map[], discovered, discoveredTruncated, 0);
    for i := 0 to |candidates|
      invariant fresh(ledger) && ledger.Valid()
      invariant Walk(files, ledger.omissions, ledger.truncated, capturedBytes)
        == ReuseWalk(limits, source, candidates[..i], start)
    {
      assert candidates[..i + 1][..i] == candidates[..i];
      files, capturedBytes := CaptureEntry(limits, source, candidates[i], files, capturedBytes, ledger);
    }
    assert candidates[..|candidates|] == candidates;
    omissions, truncated := ledger.omissions, ledger.truncated;
  }

  // ---------------------------------------------------------------- what the loop reports

  /** The loop finds the directory of a gitlink unreadable; nothing else it reports is a directory. */
  predicate DirectoryLost(c: Candidate) {
    c.sight.Linked? && c.sight.report.Some? && Omissions.UnreadableDirectory(c.sight.report.value)
  }

  /** What a step that reads in full reports, if it does. */
  function FreshReport(c: Candidate): Option<Omissions.Report> {
    match c.sight
    case Special => None
    case Linked(_, report) => report
    case NoStat(fault) => Some(Omissions.Report(Omissions.FileEntry, c.path, fault))
    case Unforeseen(fault) => Some(Omissions.Report(Omissions.FileEntry, c.path, fault))
    case Regular(_, seam, _, read) =>
      if seam.Some? then Some(Omissions.Report(Omissions.FileEntry, c.path, seam.value))
      else if read.Err? then Some(Omissions.Report(Omissions.FileEntry, c.path, read.error))
      else None
  }

  function StepReport(limits: Limits, source: map<string, FileSnapshot>, c: Candidate, w: Walk): Option<Omissions.Report> {
    if Reuses(limits, source, c, w) then None else FreshReport(c)
  }

  lemma StepRecords(limits: Limits, source: map<string, FileSnapshot>, c: Candidate, w: Walk)
    ensures var report := StepReport(limits, source, c, w);
      ReuseStep(limits, source, c, w).omissions
      == if report.Some? then Omissions.Recorded(w.omissions, report.value) else w.omissions
  {
    if !Reuses(limits, source, c, w) {
      FreshRecords(limits, c, w);
    }
  }

  lemma FreshRecords(limits: Limits, c: Candidate, w: Walk)
    ensures var report := FreshReport(c);
      FreshStep(limits, c, w).omissions
      == if report.Some? then Omissions.Recorded(w.omissions, report.value) else w.omissions
  {
  }

  lemma StepHidesIff(limits: Limits, source: map<string, FileSnapshot>, c: Candidate, w: Walk, path: string)
    ensures Omissions.Hidden(ReuseStep(limits, source, c, w).omissions, path) <==>
      || Omissions.Hidden(w.omissions, path)
      || (DirectoryLost(c) && (Omissions.Under(c.sight.report.value.path, path)
                               || |w.omissions| >= Omissions.MAX_SNAPSHOT_OMISSIONS))
  {
    var report := StepReport(limits, source, c, w);
    StepRecords(limits, source, c, w);
    if report.Some? {
      Omissions.RecordedHidesIff(w.omissions, report.value, path);
    }
  }

  /** The capture loop hides the path: it found a directory around it unreadable, or found one
      unreadable when the ledger was full. */
  predicate LoopHides(limits: Limits, source: map<string, FileSnapshot>, candidates: seq<Candidate>, w: Walk, path: string) {
    exists n | 0 <= n < |candidates| ::
      DirectoryLost(candidates[n])
      && (Omissions.Under(candidates[n].sight.report.value.path, path)
          || |ReuseWalk(limits, source, candidates[..n], w).omissions| >= Omissions.MAX_SNAPSHOT_OMISSIONS)
  }

  lemma LoopHidesFront(limits: Limits, source: map<string, FileSnapshot>, candidates: seq<Candidate>, w: Walk, path: string)
    requires candidates != []
    ensures var n := |candidates| - 1;
      LoopHides(limits, source, candidates, w, path) <==>
        || LoopHides(limits, source, candidates[..n], w, path)
        || (DirectoryLost(candidates[n])
            && (Omissions.Under(candidates[n].sight.report.value.path, path)
                || |ReuseWalk(limits, source, candidates[..n], w).omissions| >= Omissions.MAX_SNAPSHOT_OMISSIONS))
  {
    var front := candidates[..|candidates| - 1];
    assert forall k | 0 <= k < |front| :: front[k] == candidates[k] && front[..k] == candidates[..k];
  }

  /** Exactly what the ledger hides after the loop. */
  lemma {:induction false} LoopHidesIff(limits: Limits, source: map<string, FileSnapshot>, candidates: seq<Candidate>,
                                        w: Walk, path: string)
    ensures Omissions.Hidden(ReuseWalk(limits, source, candidates, w).omissions, path)
      <==> Omissions.Hidden(w.omissions, path) || LoopHides(limits, source, candidates, w, path)
  {
    if candidates != [] {
      var n := |candidates| - 1;
      LoopHidesIff(limits, source, candidates[..n], w, path);
      StepHidesIff(limits, source, candidates[n], ReuseWalk(limits, source, candidates[..n], w), path);
      LoopHidesFront(limits, source, candidates, w, path);
    }
  }

  // ---------------------------------------------------------------- the budget

  function KeptSize(r: FileSnapshot): nat {
    if r.content.Some? then r.size else 0
  }

  /** The retained bytes of the files on a list. */
  function Total(files: map<string, FileSnapshot>, paths: seq<string>): nat {
    if paths == [] then 0
    else (if paths[0] in files then KeptSize(files[paths[0]]) else 0) + Total(files, paths[1..])
  }

  lemma {:induction false} TotalAfterUpdate(files: map<string, FileSnapshot>, p: string, r: FileSnapshot, paths: seq<string>)
    requires forall i, j | 0 <= i < j < |paths| :: paths[i] != paths[j]
    ensures Total(files[p := r], paths) <= Total(files, paths) + if p in paths then KeptSize(r) else 0
  {
    if paths != [] {
      TotalAfterUpdate(files, p, r, paths[1..]);
    }
  }

  /** The retained sizes of any files of the snapshot, each counted once, stay within the bytes. */
  ghost predicate Within(files: map<string, FileSnapshot>, bytes: nat) {
    forall paths: seq<string> | (forall i, j | 0 <= i < j < |paths| :: paths[i] != paths[j]) ::
      Total(files, paths) <= bytes
  }

  function AtLeastZero(n: int): nat {
    if n < 0 then 0 else n
  }

  lemma SetWithin(files: map<string, FileSnapshot>, bytes: nat, p: string, r: FileSnapshot)
    requires Within(files, bytes)
    ensures Within(files[p := r], bytes + KeptSize(r))
  {
    forall paths: seq<string> | (forall i, j | 0 <= i < j < |paths| :: paths[i] != paths[j])
      ensures Total(files[p := r], paths) <= bytes + KeptSize(r)
    {
      TotalAfterUpdate(files, p, r, paths);
    }
  }

  /** A step sets at most one record, and accounts for what it retains. */
  lemma StepAccounts(world: World, limits: Limits, c: Candidate, w: Walk) returns (set_: Option<FileSnapshot>)
    requires Honest(world, c) && w.bytes <= AtLeastZero(limits.maxSnapshotBytes)
    ensures var after := FreshStep(limits, c, w);
      after.bytes <= AtLeastZero(limits.maxSnapshotBytes)
      && (set_.None? ==> after.files == w.files && after.bytes == w.bytes)
      && (set_.Some? ==> after.files == w.files[c.path := set_.value] && after.bytes == w.bytes + KeptSize(set_.value))
  {
    var after := FreshStep(limits, c, w);
    set_ := if after.files == w.files && after.bytes == w.bytes then None else Some(after.files[c.path]);
  }

  /** Main result on the budget: retained content never exceeds `maxSnapshotBytes`, over all files. */
  lemma {:induction false} BudgetHolds(world: World, limits: Limits, candidates: seq<Candidate>, w: Walk)
    requires forall c | c in candidates :: Honest(world, c)
    requires w.files == map[] && w.bytes == 0
    ensures Within(FreshWalk(limits, candidates, w).files, FreshWalk(limits, candidates, w).bytes)
    ensures FreshWalk(limits, candidates, w).bytes <= AtLeastZero(limits.maxSnapshotBytes)
  {
    if candidates == [] {
      forall paths: seq<string> ensures Total(w.files, paths) <= 0 {
        NothingRetained(paths);
      }
    } else {
      var n := |candidates| - 1;
      var before := FreshWalk(limits, candidates[..n], w);
      BudgetHolds(world, limits, candidates[..n], w);
      var r := StepAccounts(world, limits, candidates[n], before);
      if r.Some? {
        SetWithin(before.files, before.bytes, candidates[n].path, r.value);
      }
    }
  }

  lemma {:induction false} NothingRetained(paths: seq<string>)
    ensures Total(map[], paths) == 0
  {
    if paths != [] {
      NothingRetained(paths[1..]);
    }
  }
}
