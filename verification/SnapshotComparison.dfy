/** Comparing two captures (`compareSnapshots` of src/capture.ts). */
module SnapshotComparison {
  import opened Options
  import Discovery
  import Omissions
  import Ordering
  import Patch
  import opened Snapshots

  datatype WorkspaceSnapshot = WorkspaceSnapshot(files: map<string, FileSnapshot>, omissions: seq<Omissions.Omission>)

  function At(s: WorkspaceSnapshot, path: string): Option<FileSnapshot> {
    if path in s.files then Some(s.files[path]) else None
  }

  predicate SameSnapshotEntry(a: FileSnapshot, b: FileSnapshot) {
    && a.sha256 == b.sha256 && a.entryType == b.entryType && a.mode == b.mode
    && a.linkTarget == b.linkTarget && a.gitObjectId == b.gitObjectId
  }

  // ---------------------------------------------------------------- the change at one path

  function DisplayContent(f: Option<FileSnapshot>): Option<string> {
    if f.None? then None
    else if f.value.entryType == Some(SymbolicLink) then f.value.linkTarget
    else if f.value.entryType == Some(Gitlink) then
      Some("Subproject commit " + f.value.gitObjectId.GetOr("unknown") + "\n")
    else f.value.content
  }

  function ReasonText(r: OmittedReason): string {
    match r
    case Binary => "binary"
    case Oversized => "oversized"
    case SnapshotLimit => "snapshot_limit"
    case OutsideWorkspace => "outside_workspace"
    case Missing => "missing"
    case Unreadable => "unreadable"
  }

  function OmittedText(f: Option<FileSnapshot>): Option<string> {
    if f.Some? && f.value.omittedReason.Some? then Some(ReasonText(f.value.omittedReason.value)) else None
  }

  function FileChange(path: string, status: Patch.Status, oldFile: Option<FileSnapshot>, newFile: Option<FileSnapshot>)
      : Patch.ChangedFile
  {
    var binary := (oldFile.Some? && oldFile.value.isBinary) || (newFile.Some? && newFile.value.isBinary);
    var oldOmitted, newOmitted := OmittedText(oldFile), OmittedText(newFile);
    Patch.ChangedFile(
      path, status, binary, oldOmitted == Some("oversized") || newOmitted == Some("oversized"),
      None, None, None, None, None,
      if binary then Some("binary") else if oldOmitted.Some? then oldOmitted else newOmitted,
      DisplayContent(oldFile), DisplayContent(newFile))
  }

  /** The status of a path that differs between the captures. */
  function StatusAt(before: WorkspaceSnapshot, after: WorkspaceSnapshot, path: string): Option<Patch.Status> {
    match (At(before, path), At(after, path))
    case (None, None) => None
    case (None, Some(_)) => Some(Patch.Added)
    case (Some(_), None) => if Omissions.Hidden(after.omissions, path) then None else Some(Patch.Deleted)
    case (Some(o), Some(n)) => if SameSnapshotEntry(o, n) then None else Some(Patch.Modified)
  }

  /** The change that describes how the path differs, if it does. */
  function ChangeAt(before: WorkspaceSnapshot, after: WorkspaceSnapshot, path: string): (c: Option<Patch.ChangedFile>)
    ensures c.Some? ==> c.value.path == path && StatusAt(before, after, path) == Some(c.value.status)
  {
    match StatusAt(before, after, path)
    case None => None
    case Some(status) => Some(FileChange(path, status, At(before, path), At(after, path)))
  }

  /** The changes at the paths, in the order of the paths. */
  function ChangesAt(before: WorkspaceSnapshot, after: WorkspaceSnapshot, paths: seq<string>): seq<Patch.ChangedFile> {
    if paths == [] then []
    else
      var n := |paths| - 1;
      var change := ChangeAt(before, after, paths[n]);
      ChangesAt(before, after, paths[..n]) + (if change.Some? then [change.value] else [])
  }

  lemma ChangesPush(before: WorkspaceSnapshot, after: WorkspaceSnapshot, paths: seq<string>, i: nat)
    requires i < |paths|
    ensures var change := ChangeAt(before, after, paths[i]);
      ChangesAt(before, after, paths[..i + 1])
      == if change.Some? then ChangesAt(before, after, paths[..i]) + [change.value] else ChangesAt(before, after, paths[..i])
  {
    assert paths[..i + 1][..i] == paths[..i];
  }

  /** Exactly the changes at the paths. */
  ghost predicate ListsChanges(before: WorkspaceSnapshot, after: WorkspaceSnapshot, paths: seq<string>,
                               changed: seq<Patch.ChangedFile>)
  {
    forall c :: c in changed <==> c.path in paths && ChangeAt(before, after, c.path) == Some(c)
  }

  lemma {:induction false} ChangesAreListed(before: WorkspaceSnapshot, after: WorkspaceSnapshot, paths: seq<string>)
    requires Ordering.Increasing(paths)
    ensures ListsChanges(before, after, paths, ChangesAt(before, after, paths))
    ensures Patch.IncreasingPaths(ChangesAt(before, after, paths))
  {
    if paths != [] {
      var n := |paths| - 1;
      var front := ChangesAt(before, after, paths[..n]);
      var change := ChangeAt(before, after, paths[n]);
      ChangesAreListed(before, after, paths[..n]);
      PushPath(before, after, paths[..n], paths[n], front, change);
      assert paths == paths[..n] + [paths[n]];
      if change.Some? {
        PushKeepsOrder(paths, front, change.value);
      } else {
        assert front + [] == front;
      }
    }
  }

  lemma PushPath(before: WorkspaceSnapshot, after: WorkspaceSnapshot, paths: seq<string>, path: string,
                 changed: seq<Patch.ChangedFile>, change: Option<Patch.ChangedFile>)
    requires ListsChanges(before, after, paths, changed) && change == ChangeAt(before, after, path)
    ensures ListsChanges(before, after, paths + [path], changed + if change.Some? then [change.value] else [])
  {
    var more := changed + if change.Some? then [change.value] else [];
    forall c ensures c in more <==> c.path in paths + [path] && ChangeAt(before, after, c.path) == Some(c) {
      assert c in more <==> c in changed || change == Some(c);
    }
  }

  lemma PushKeepsOrder(paths: seq<string>, changed: seq<Patch.ChangedFile>, c: Patch.ChangedFile)
    requires paths != [] && Ordering.Increasing(paths) && c.path == paths[|paths| - 1]
    requires Patch.IncreasingPaths(changed) && forall d | d in changed :: d.path in paths[..|paths| - 1]
    ensures Patch.IncreasingPaths(changed + [c])
  {
    forall k | 0 <= k < |changed| ensures Ordering.Before(changed[k].path, c.path) {
      assert changed[k] in changed;
      var j :| 0 <= j < |paths| - 1 && paths[..|paths| - 1][j] == changed[k].path;
      assert Ordering.Before(paths[j], paths[|paths| - 1]);
    }
  }

  // ---------------------------------------------------------------- changes, said of the records

  /** How the path differs between the captures. */
  ghost predicate Differs(before: WorkspaceSnapshot, after: WorkspaceSnapshot, path: string, status: Patch.Status) {
    match status
    case Added => path !in before.files && path in after.files
    case Deleted => path in before.files && path !in after.files && !Omissions.Hidden(after.omissions, path)
    case Modified =>
      && path in before.files && path in after.files
      && var o, n := before.files[path], after.files[path];
         || o.sha256 != n.sha256 || o.entryType != n.entryType || o.mode != n.mode
         || o.linkTarget != n.linkTarget || o.gitObjectId != n.gitObjectId
  }

  /** What is shown of a record: a file's content, a link's target, a submodule's commit. */
  ghost predicate ShownAs(files: map<string, FileSnapshot>, path: string, content: Option<string>) {
    if path !in files then content == None
    else
      match files[path].entryType
      case Some(SymbolicLink) => content == files[path].linkTarget
      case Some(Gitlink) => content == Some("Subproject commit " + files[path].gitObjectId.GetOr("unknown") + "\n")
      case _ => content == files[path].content
  }

  /** The record exists and has the flag. */
  ghost predicate Has(files: map<string, FileSnapshot>, path: string, flag: FileSnapshot -> bool) {
    path in files && flag(files[path])
  }

  /** The change shows the old record's content as old and the new record's as new, and carries
      their flags. */
  ghost predicate Carries(before: WorkspaceSnapshot, after: WorkspaceSnapshot, c: Patch.ChangedFile) {
    && ShownAs(before.files, c.path, c.oldContent) && ShownAs(after.files, c.path, c.newContent)
    && (c.binary <==>
          || Has(before.files, c.path, (f: FileSnapshot) => f.isBinary)
          || Has(after.files, c.path, (f: FileSnapshot) => f.isBinary))
    && (c.oversized <==>
          || Has(before.files, c.path, (f: FileSnapshot) => f.omittedReason == Some(Oversized))
          || Has(after.files, c.path, (f: FileSnapshot) => f.omittedReason == Some(Oversized)))
    && (c.diffOmittedReason.Some? <==>
          || c.binary
          || Has(before.files, c.path, (f: FileSnapshot) => f.omittedReason.Some?)
          || Has(after.files, c.path, (f: FileSnapshot) => f.omittedReason.Some?))
    && Explains(before, after, c)
  }

  /** The reason why no diff can be shown. */
  predicate Explains(before: WorkspaceSnapshot, after: WorkspaceSnapshot, c: Patch.ChangedFile) {
    var r := FirstReason(before, after, c.path);
    if c.binary then c.diffOmittedReason == Some("binary")
    else if r.Some? then r.value in REASONS && c.diffOmittedReason == Some(REASONS[r.value])
    else c.diffOmittedReason == None
  }

  /** The reason of the old record if it has one, and otherwise that of the new. */
  function FirstReason(before: WorkspaceSnapshot, after: WorkspaceSnapshot, path: string): Option<OmittedReason> {
    if path in before.files && before.files[path].omittedReason.Some? then before.files[path].omittedReason
    else if path in after.files then after.files[path].omittedReason
    else None
  }

  const REASONS: map<OmittedReason, string> :=
    map[Binary := "binary", Oversized := "oversized", SnapshotLimit := "snapshot_limit",
        OutsideWorkspace := "outside_workspace", Missing := "missing", Unreadable := "unreadable"]

  lemma ChangeIsDifference(before: WorkspaceSnapshot, after: WorkspaceSnapshot, path: string, status: Patch.Status)
    ensures StatusAt(before, after, path) == Some(status) <==> Differs(before, after, path, status)
  {
  }

  lemma ChangeCarries(before: WorkspaceSnapshot, after: WorkspaceSnapshot, path: string)
    requires ChangeAt(before, after, path).Some?
    ensures Carries(before, after, ChangeAt(before, after, path).value)
  {
    OversizedText(At(before, path));
    OversizedText(At(after, path));
    ChangeExplains(before, after, path);
  }

  lemma ChangeExplains(before: WorkspaceSnapshot, after: WorkspaceSnapshot, path: string)
    requires ChangeAt(before, after, path).Some?
    ensures Explains(before, after, ChangeAt(before, after, path).value)
  {
    var r := FirstReason(before, after, path);
    if r.Some? {
      match r.value
      case Binary =>
      case Oversized =>
      case SnapshotLimit =>
      case OutsideWorkspace =>
      case Missing =>
      case Unreadable =>
    }
  }

  lemma OversizedText(f: Option<FileSnapshot>)
    ensures OmittedText(f) == Some("oversized") <==> f.Some? && f.value.omittedReason == Some(Oversized)
  {
    assert "oversized"[0] == 'o' && "oversized"[1] == 'v' && "outside_workspace"[1] == 'u';
    assert "binary"[0] == 'b' && "snapshot_limit"[0] == 's' && "missing"[0] == 'm' && "unreadable"[0] == 'u';
  }

  /** No two facts of the world share a hash. */
  ghost predicate NoCollision(world: World) {
    forall a, s, b, t :: world(a, s).sha256 == world(b, t).sha256 ==> world(a, s) == world(b, t)
  }

  /** Main result on edits: two trusted records of regular files are reported as modified exactly
      when what the file holds or its mode differs. */
  lemma EditedIff(world: World, before: WorkspaceSnapshot, after: WorkspaceSnapshot, path: string,
                  oldPlace: string, oldStat: FileStat, newPlace: string, newStat: FileStat)
    requires NoCollision(world) && path in before.files && path in after.files
    requires Trusted(world, path, before.files[path]) && Trusted(world, path, after.files[path])
    requires ReusableIdentityMatches(before.files[path], oldStat, oldPlace)
    requires ReusableIdentityMatches(after.files[path], newStat, newPlace)
    ensures StatusAt(before, after, path) == Some(Patch.Modified)
      <==> world(oldPlace, oldStat) != world(newPlace, newStat) || oldStat.mode != newStat.mode
  {
    TrustedRecord(world, path, before.files[path], oldPlace, oldStat);
    TrustedRecord(world, path, after.files[path], newPlace, newStat);
  }

  lemma TrustedRecord(world: World, path: string, r: FileSnapshot, place: string, stat: FileStat)
    requires Trusted(world, path, r) && ReusableIdentityMatches(r, stat, place)
    ensures r.sha256 == Some(world(place, stat).sha256) && r.mode == Some(stat.mode)
    ensures r.entryType == Some(File) && r.linkTarget == None && r.gitObjectId == None
  {
    var c := Candidate(path, place, Special);
    assert RecordOf(world(c.absolutePath, stat), c, stat, r);
  }

  // ---------------------------------------------------------------- the comparison

  /** The paths are those of the set, each once. */
  ghost predicate Enumerates(paths: seq<string>, keys: set<string>) {
    && (forall p :: p in paths <==> p in keys)
    && forall i, j | 0 <= i < j < |paths| :: paths[i] != paths[j]
  }

  lemma EnumerateOne(paths: seq<string>, keys: set<string>, p: string)
    requires Enumerates(paths, keys) && p !in keys
    ensures Enumerates(paths + [p], keys + {p})
  {
    forall q ensures q in paths + [p] <==> q in keys + {p} {
      assert q in paths + [p] <==> q in paths || q == p;
    }
  }

  /** The keys of a map as a list without duplicates. */
  method KeyList(keys: set<string>) returns (paths: seq<string>)
    ensures Enumerates(paths, keys)
  {
    paths := [];
    var rest := keys;
    while rest != {}
      invariant rest <= keys && Enumerates(paths, keys - rest)
      decreases |rest|
    {
      var p :| p in rest;
      EnumerateOne(paths, keys - rest, p);
      assert keys - rest + {p} == keys - (rest - {p});
      rest := rest - {p};
      paths := paths + [p];
    }
    assert keys - {} == keys;
  }

  method ComparePath(before: WorkspaceSnapshot, after: WorkspaceSnapshot, path: string)
      returns (change: Option<Patch.ChangedFile>)
    ensures change == ChangeAt(before, after, path)
  {
    var oldFile, newFile := At(before, path), At(after, path);
    if oldFile.None? && newFile.Some? {
      return Some(FileChange(path, Patch.Added, None, newFile));
    } else if oldFile.Some? && newFile.None? {
      if Omissions.Hidden(after.omissions, path) {
        return None;
      }
      return Some(FileChange(path, Patch.Deleted, oldFile, None));
    } else if oldFile.Some? && newFile.Some? && !SameSnapshotEntry(oldFile.value, newFile.value) {
      return Some(FileChange(path, Patch.Modified, oldFile, newFile));
    }
    change := None;
  }

  /** `compareSnapshots`: every path that differs, once, in order, and no other. */
  method CompareSnapshots(before: WorkspaceSnapshot, after: WorkspaceSnapshot) returns (changed: seq<Patch.ChangedFile>)
    ensures Patch.IncreasingPaths(changed)
    ensures forall c :: c in changed <==> ChangeAt(before, after, c.path) == Some(c)
    ensures forall path, status ::
      Differs(before, after, path, status) <==> exists c :: c in changed && c.path == path && c.status == status
    ensures forall c | c in changed :: Carries(before, after, c)
  {
    var keys := KeyList(before.files.Keys + after.files.Keys);
    var paths := Ordering.Sort(keys);
    changed := [];
    for i := 0 to |paths|
      invariant changed == ChangesAt(before, after, paths[..i])
    {
      ChangesPush(before, after, paths, i);
      var change := ComparePath(before, after, paths[i]);
      if change.Some? {
        changed := changed + [change.value];
      }
    }
    assert paths[..|paths|] == paths;
    Ordering.SortedStrings(keys);
    ChangesAreListed(before, after, paths);
    OnlyKeysChange(before, after, paths, changed);
    ListedAre(before, after, changed);
  }

  lemma ListedAre(before: WorkspaceSnapshot, after: WorkspaceSnapshot, changed: seq<Patch.ChangedFile>)
    requires forall c :: c in changed <==> ChangeAt(before, after, c.path) == Some(c)
    ensures forall path, status ::
      Differs(before, after, path, status) <==> exists c :: c in changed && c.path == path && c.status == status
    ensures forall c | c in changed :: Carries(before, after, c)
  {
    forall path, status
      ensures Differs(before, after, path, status) <==> exists c :: c in changed && c.path == path && c.status == status
    {
      ChangeIsDifference(before, after, path, status);
      var change := ChangeAt(before, after, path);
      assert change.Some? ==> change.value in changed;
    }
    forall c | c in changed ensures Carries(before, after, c) {
      ChangeCarries(before, after, c.path);
    }
  }

  lemma OnlyKeysChange(before: WorkspaceSnapshot, after: WorkspaceSnapshot, paths: seq<string>,
                       changed: seq<Patch.ChangedFile>)
    requires forall p :: p in paths <==> p in before.files.Keys + after.files.Keys
    requires ListsChanges(before, after, paths, changed)
    ensures forall c :: c in changed <==> ChangeAt(before, after, c.path) == Some(c)
  {
    forall c ensures c in changed <==> ChangeAt(before, after, c.path) == Some(c) {
      assert ChangeAt(before, after, c.path).Some? ==> c.path in paths;
    }
  }

  // ---------------------------------------------------------------- deletions across a whole capture

  function StartOf(d: Discovery.Discovery): Walk {
    Walk(map[], Discovery.Discovered(d), Discovery.DiscoveryTruncated(d), 0)
  }

  /** The ledger of a whole capture: discovery, and then the capture loop. */
  function LedgerOf(limits: Limits, source: map<string, FileSnapshot>, candidates: seq<Candidate>, d: Discovery.Discovery)
      : seq<Omissions.Omission> {
    ReuseWalk(limits, source, candidates, StartOf(d)).omissions
  }

  /** Main result: across discovery, audit, capture and comparison, a path is reported deleted
      exactly when it was captured before and is not now, and neither discovery nor the capture loop
      hides it. */
  lemma DeletedIff(limits: Limits, source: map<string, FileSnapshot>, candidates: seq<Candidate>, d: Discovery.Discovery,
                   before: WorkspaceSnapshot, after: WorkspaceSnapshot, path: string)
    requires Discovery.ProperDiscovery(d) && after.omissions == LedgerOf(limits, source, candidates, d)
    ensures StatusAt(before, after, path) == Some(Patch.Deleted) <==>
      && path in before.files && path !in after.files
      && !Discovery.DiscoveryHides(d, path) && !LoopHides(limits, source, candidates, StartOf(d), path)
  {
    Discovery.DiscoveryHidesIff(d, path);
    LoopHidesIff(limits, source, candidates, StartOf(d), path);
  }

  /** The directory was found unreadable, and stays hidden: the loop, the audit and the file system
      walk are never overruled, git's warnings when the audit finds their directory gone. */
  ghost predicate StaysUnreadable(candidates: seq<Candidate>, d: Discovery.Discovery, r: Omissions.Report) {
    && Omissions.UnreadableDirectory(r)
    && (|| (exists c | c in candidates && DirectoryLost(c) :: c.sight.report.value == r)
        || r in Discovery.Audit(d)
        || (r in Discovery.Found(d) && (d.Warned? ==> Discovery.DiscoveryHides(d, r.path))))
  }

  /** So no path under a directory that any of them found unreadable is reported deleted, even when
      the ledger overflowed. */
  lemma UnreadableIsNeverDeleted(limits: Limits, source: map<string, FileSnapshot>, candidates: seq<Candidate>,
                                 d: Discovery.Discovery, before: WorkspaceSnapshot, after: WorkspaceSnapshot,
                                 r: Omissions.Report, path: string)
    requires Discovery.ProperDiscovery(d) && after.omissions == LedgerOf(limits, source, candidates, d)
    requires StaysUnreadable(candidates, d, r) && Omissions.Under(r.path, path)
    ensures StatusAt(before, after, path) != Some(Patch.Deleted)
  {
    var discovered := Discovery.Discovered(d);
    LoopHidesIff(limits, source, candidates, StartOf(d), path);
    if c :| c in candidates && DirectoryLost(c) && c.sight.report.value == r {
      var n :| 0 <= n < |candidates| && candidates[n] == c;
      assert DirectoryLost(candidates[n]) && Omissions.Under(candidates[n].sight.report.value.path, path);
      assert LoopHides(limits, source, candidates, StartOf(d), path);
    } else {
      if r in (if d.Warned? then Discovery.Audit(d) else Discovery.Found(d)) {
        Discovery.ReadingsStayHidden(d, r);
      } else {
        Discovery.DiscoveryHidesIff(d, r.path);
      }
      HiddenBelow(discovered, r.path, path);
    }
  }

  lemma HiddenBelow(omissions: seq<Omissions.Omission>, dir: string, path: string)
    requires Omissions.Hidden(omissions, dir) && Omissions.Under(dir, path)
    ensures Omissions.Hidden(omissions, path)
  {
    var k :| 0 <= k < |omissions| && Omissions.HiddenBy(omissions[k], dir);
    Omissions.UnderUnder(omissions[k].path, dir, path);
    Omissions.HiddenAt(omissions, k, path);
  }

  /** Git could not open a directory, and it is gone when the audit gets to it. */
  function GoneByAudit(name: string): Discovery.Discovery {
    Discovery.Warned(
      [Discovery.Warning(Omissions.DirectoryEntry, name)], "",
      Discovery.Listed(Discovery.Folder(name, Discovery.Unlisted(Omissions.Fault(Some("ENOENT"))), Discovery.End)))
  }

  /** Then its children are reported deleted, though git found it unreadable. */
  lemma AuditCanUncover(limits: Limits, source: map<string, FileSnapshot>, before: WorkspaceSnapshot, after: WorkspaceSnapshot)
    requires "src/a.ts" in before.files && "src/a.ts" !in after.files
    requires after.omissions == LedgerOf(limits, source, [], GoneByAudit("src"))
    ensures Omissions.Report(Omissions.DirectoryEntry, "src", Omissions.Fault(None)) in Discovery.Found(GoneByAudit("src"))
    ensures StatusAt(before, after, "src/a.ts") == Some(Patch.Deleted)
  {
    GoneByAuditLedger();
  }

  lemma GoneByAuditLedger()
    ensures Discovery.Found(GoneByAudit("src")) == [Omissions.Report(Omissions.DirectoryEntry, "src", Omissions.Fault(None))]
    ensures Discovery.Discovered(GoneByAudit("src"))
      == [Omissions.Omission("src", Omissions.DirectoryEntry, Omissions.Missing, Some("ENOENT"))]
  {
    var d := GoneByAudit("src");
    assert Discovery.Trimmed("src") == "src" && Discovery.Trimmed("") == "" by {
      assert "src"[0] == 's';
    }
    assert Discovery.Rebased("src", "") == Some("src") by {
      assert "src"[0] == 's';
    }
    assert d.warnings[..0] == [];
    assert Discovery.Audit(d) == [Omissions.Report(Omissions.DirectoryEntry, "src", Omissions.Fault(Some("ENOENT")))];
    var warned := Omissions.RecordAll([], Discovery.Found(d));
    var audit := Omissions.RecordAll([], Discovery.Audit(d));
    assert warned == [Omissions.Omission("src", Omissions.DirectoryEntry, Omissions.Unreadable, None)];
    assert audit == [Omissions.Omission("src", Omissions.DirectoryEntry, Omissions.Missing, Some("ENOENT"))];
    assert audit[..0] == [];
  }

  /** Comparing the other way around swaps additions with deletions and old with new content, and
      keeps the flags; only a directory that could not be read makes the two differ. */
  lemma AddedIsDeletedBackwards(before: WorkspaceSnapshot, after: WorkspaceSnapshot, path: string)
    ensures StatusAt(before, after, path) == Some(Patch.Added) && !Omissions.Hidden(before.omissions, path)
      <==> StatusAt(after, before, path) == Some(Patch.Deleted)
    ensures StatusAt(before, after, path) == Some(Patch.Modified) <==> StatusAt(after, before, path) == Some(Patch.Modified)
    ensures !Omissions.Hidden(before.omissions, path) && !Omissions.Hidden(after.omissions, path) ==>
      Mirrored(ChangeAt(before, after, path), ChangeAt(after, before, path))
  {
  }

  predicate Mirrored(c: Option<Patch.ChangedFile>, d: Option<Patch.ChangedFile>) {
    && (c.Some? <==> d.Some?)
    && (c.Some? ==>
          && d.value.oldContent == c.value.newContent && d.value.newContent == c.value.oldContent
          && d.value.binary == c.value.binary && d.value.oversized == c.value.oversized
          && (d.value.diffOmittedReason.Some? <==> c.value.diffOmittedReason.Some?))
  }
}
