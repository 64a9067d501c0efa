/** What a capture records of each path, said on what the file system answered (src/capture.ts). */
module SnapshotRecords {
  import opened Options
  import opened Snapshots
  import Omissions

  // ---------------------------------------------------------------- one path

  /** The entry is not there any more. */
  predicate Gone(fault: Omissions.Fault) {
    fault.code == Some("ENOENT") || fault.code == Some("ENOTDIR")
  }

  /** The failure that kept a path from being read, if one did. */
  function FaultOf(c: Candidate): Option<Omissions.Fault> {
    match c.sight
    case NoStat(fault) => Some(fault)
    case Unforeseen(fault) => Some(fault)
    case Special => None
    case Linked(_, _) => None
    case Regular(_, seam, _, read) => if seam.Some? then seam else if read.Err? then Some(read.error) else None
  }

  /** The record carries the identity of the file. */
  predicate Identifies(r: FileSnapshot, c: Candidate, stat: FileStat) {
    && r.relativePath == c.path && r.absolutePath == c.absolutePath && r.exists_ && r.entryType == Some(File)
    && r.size == stat.size && r.mtimeMs == stat.mtimeMs && r.ctimeMs == Some(stat.ctimeMs) && r.dev == Some(stat.dev)
    && r.ino == Some(stat.ino) && r.mode == Some(stat.mode) && r.linkTarget.None? && r.gitObjectId.None?
  }

  /** A presence record: the entry is there, and nothing of its content is known. */
  predicate Presence(r: FileSnapshot, c: Candidate) {
    && r.relativePath == c.path && r.absolutePath == c.absolutePath && r.exists_ && r.entryType == Some(File)
    && r.sha256.None? && r.content.None? && !r.isBinary && r.omittedReason == Some(Unreadable)
    && (c.sight.Regular? ==> Identifies(r, c, c.sight.stat))
    && (!c.sight.Regular? ==>
          r.size == 0 && r.mtimeMs == 0 && r.ctimeMs.None? && r.dev.None? && r.ino.None? && r.mode.None?)
  }

  /** The content is text and fits both limits. */
  predicate FitsLimits(limits: Limits, stat: FileStat, facts: Facts, used: nat) {
    !facts.isBinary && stat.size <= limits.maxFileBytes && used + stat.size <= limits.maxSnapshotBytes
  }

  /** The record of a file that was read: its hash whatever its size, its text if that fits, and the
      reason otherwise. */
  predicate Reading(limits: Limits, r: FileSnapshot, c: Candidate, stat: FileStat, facts: Facts, used: nat) {
    && Identifies(r, c, stat) && r.sha256 == Some(facts.sha256) && r.isBinary == facts.isBinary
    && r.content == (if FitsLimits(limits, stat, facts, used) then Some(facts.text) else None)
    && (r.omittedReason.None? <==> FitsLimits(limits, stat, facts, used))
    && (r.omittedReason == Some(Binary) <==> facts.isBinary)
    && (r.omittedReason == Some(Oversized) <==> !facts.isBinary && stat.size > limits.maxFileBytes)
    && (r.omittedReason == Some(SnapshotLimit) <==>
          !facts.isBinary && stat.size <= limits.maxFileBytes && used + stat.size > limits.maxSnapshotBytes)
  }

  /** What the capture should hold of a path that it had not met before. */
  predicate Records(limits: Limits, c: Candidate, r: Option<FileSnapshot>, used: nat) {
    match FaultOf(c)
    case Some(fault) => (r.None? <==> Gone(fault)) && (r.Some? ==> Presence(r.value, c))
    case None =>
      match c.sight
      case Linked(record, _) => r == record
      case Regular(stat, _, _, read) => read.Ok? ==> r.Some? && Reading(limits, r.value, c, stat, read.value, used)
      case _ => r.None?
  }

  function At(files: map<string, FileSnapshot>, path: string): Option<FileSnapshot> {
    if path in files then Some(files[path]) else None
  }

  /** The budget used after the path. */
  function UsedAfter(limits: Limits, c: Candidate, used: nat): nat {
    if c.sight.Regular? && FaultOf(c).None? && c.sight.read.Ok? && FitsLimits(limits, c.sight.stat, c.sight.read.value, used)
    then used + c.sight.stat.size else used
  }

  /** A path that could not be read: nothing is recorded if it is gone, and its presence otherwise. */
  lemma FaultRecords(limits: Limits, c: Candidate, w: Walk)
    requires FaultOf(c).Some?
    ensures var presence := UnreadableSnapshot(c, if c.sight.Regular? then Some(c.sight.stat) else None);
      Presence(presence, c) && FreshStep(limits, c, w) == Failed(w, c, FaultOf(c).value, presence)
  {
  }

  lemma ReadingRecords(limits: Limits, c: Candidate, stat: FileStat, facts: Facts, w: Walk)
    ensures var after := Keep(limits, c, stat, facts, w);
      && c.path in after.files && Reading(limits, after.files[c.path], c, stat, facts, w.bytes)
      && after.bytes == (if FitsLimits(limits, stat, facts, w.bytes) then w.bytes + stat.size else w.bytes)
      && forall p | p != c.path :: At(after.files, p) == At(w.files, p)
  {
  }

  /** One path: what is recorded, what is used of the budget, and that no other record changes. */
  lemma StepRecordsPath(limits: Limits, c: Candidate, w: Walk)
    requires c.path !in w.files
    ensures var after := FreshStep(limits, c, w);
      && Records(limits, c, At(after.files, c.path), w.bytes) && after.bytes == UsedAfter(limits, c, w.bytes)
      && forall p | p != c.path :: At(after.files, p) == At(w.files, p)
  {
    if FaultOf(c).Some? {
      FaultRecords(limits, c, w);
    } else if c.sight.Regular? {
      ReadingRecords(limits, c, c.sight.stat, c.sight.read.value, w);
    }
  }

  /** A failure is listed while there is room. */
  lemma FaultIsListed(limits: Limits, c: Candidate, w: Walk)
    requires FaultOf(c).Some? && |w.omissions| < Omissions.MAX_SNAPSHOT_OMISSIONS
    ensures var omissions := FreshStep(limits, c, w).omissions;
      && |omissions| == |w.omissions| + 1 && omissions[..|w.omissions|] == w.omissions
      && var o := omissions[|w.omissions|];
      o.path == c.path && o.kind.FileEntry? && (o.reason.Missing? <==> Gone(FaultOf(c).value))
  {
    FaultRecords(limits, c, w);
  }

  // ---------------------------------------------------------------- the whole capture

  /** Discovery names each path once. */
  ghost predicate DistinctPaths(candidates: seq<Candidate>) {
    forall i, j | 0 <= i < j < |candidates| :: candidates[i].path != candidates[j].path
  }

  /** The budget used by the paths, one after another. */
  function Used(limits: Limits, candidates: seq<Candidate>): nat {
    if candidates == [] then 0
    else UsedAfter(limits, candidates[|candidates| - 1], Used(limits, candidates[..|candidates| - 1]))
  }

  /** Each of the paths is recorded as it should be, after those before it. */
  ghost predicate AllRecorded(limits: Limits, candidates: seq<Candidate>, files: map<string, FileSnapshot>) {
    && (forall k | 0 <= k < |candidates| ::
          Records(limits, candidates[k], At(files, candidates[k].path), Used(limits, candidates[..k])))
    && forall p | p in files :: exists k :: 0 <= k < |candidates| && candidates[k].path == p
  }

  lemma OneMoreRecorded(limits: Limits, candidates: seq<Candidate>, c: Candidate, w: Walk)
    requires DistinctPaths(candidates + [c]) && AllRecorded(limits, candidates, w.files) && w.bytes == Used(limits, candidates)
    ensures var after := FreshStep(limits, c, w);
      AllRecorded(limits, candidates + [c], after.files) && after.bytes == Used(limits, candidates + [c])
  {
    var more, n, after := candidates + [c], |candidates|, FreshStep(limits, c, w);
    assert more[n] == c && more[..n] == candidates;
    forall k | 0 <= k < n ensures candidates[k].path != c.path {
      assert more[k] == candidates[k];
    }
    StepRecordsPath(limits, c, w);
    forall k | 0 <= k < |more|
      ensures Records(limits, more[k], At(after.files, more[k].path), Used(limits, more[..k]))
    {
      if k < n {
        assert more[k] == candidates[k] && more[..k] == candidates[..k] && more[k].path != more[n].path;
      }
    }
    forall p | p in after.files ensures exists k :: 0 <= k < |more| && more[k].path == p {
      if p != c.path {
        assert At(after.files, p) == At(w.files, p);
        var k :| 0 <= k < n && candidates[k].path == p;
        assert more[k].path == p;
      }
    }
  }

  /** Main result: a capture that starts empty holds of each path exactly what the file system answered
      about it, its text kept exactly while the limits allow, and of no other path anything. */
  lemma {:induction false} CaptureRecords(limits: Limits, candidates: seq<Candidate>, w: Walk)
    requires DistinctPaths(candidates) && w.files == map[] && w.bytes == 0
    ensures var after := FreshWalk(limits, candidates, w);
      AllRecorded(limits, candidates, after.files) && after.bytes == Used(limits, candidates)
  {
    if candidates != [] {
      var n := |candidates| - 1;
      CaptureRecords(limits, candidates[..n], w);
      assert candidates == candidates[..n] + [candidates[n]];
      OneMoreRecorded(limits, candidates[..n], candidates[n], FreshWalk(limits, candidates[..n], w));
    }
  }
}
