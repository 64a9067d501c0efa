/** Discovery of what a capture cannot list (`discoverFiles` of src/capture.ts): git's warnings, the
    audit of the directories behind them, and the walk that stands in where git gives no answer. */
module Discovery {
  import opened Options
  import opened Omissions

  // ---------------------------------------------------------------- reading directories

  /** What reading a directory shows: a fault, or its entries in the order they are given. */
  datatype Dir = Unlisted(fault: Fault) | Listed(entries: Entries)

  datatype Entries = End | Folder(name: string, dir: Dir, rest: Entries) | Other(name: string, rest: Entries)

  const IGNORED_DIRS: set<string> := {
    ".git", "node_modules", "dist", "build", "coverage", ".next", ".nuxt", ".cache", ".tmp", "tmp", "vendor", ".env"
  }

  function Inside(base: string, name: string): string {
    if base == "" then name else base + "/" + name
  }

  /** The reports of a walk that visits every directory not ignored by its name. */
  function DirReports(dir: Dir, base: string): seq<Report> {
    match dir
    case Unlisted(fault) => [Report(DirectoryEntry, if base == "" then "." else base, fault)]
    case Listed(entries) => EntryReports(entries, base)
  }

  function EntryReports(entries: Entries, base: string): seq<Report> {
    match entries
    case End => []
    case Other(_, rest) => EntryReports(rest, base)
    case Folder(name, dir, rest) =>
      (if name in IGNORED_DIRS then [] else DirReports(dir, Inside(base, name))) + EntryReports(rest, base)
  }

  /** The recursive walk of `auditUnreadableDirectories`, and of `discoverFilesystemFiles`. */
  method WalkDirectories(dir: Dir, base: string, ledger: OmissionLedger)
    requires ledger.Valid()
    modifies ledger
    ensures ledger.Valid() && ledger.reports == old(ledger.reports) + DirReports(dir, base)
    decreases dir
  {
    if dir.Unlisted? {
      ledger.Record(DirectoryEntry, if base == "" then "." else base, dir.fault);
      return;
    }
    var rest := dir.entries;
    ghost var before := ledger.reports;
    while !rest.End?
      invariant ledger.Valid() && Reported(before, ledger.reports, rest, dir, base)
      invariant rest == dir.entries || rest < dir.entries
      decreases rest
    {
      ghost var now := ledger.reports;
      if rest.Folder? && rest.name !in IGNORED_DIRS {
        WalkDirectories(rest.dir, Inside(base, rest.name), ledger);
      }
      ReportedOne(before, now, ledger.reports, rest, dir, base);
      rest := rest.rest;
    }
  }

  /** With what the rest of the entries will report, the reports of the directory are complete. */
  ghost predicate Reported(before: seq<Report>, reports: seq<Report>, rest: Entries, dir: Dir, base: string) {
    reports + EntryReports(rest, base) == before + DirReports(dir, base)
  }

  lemma ReportedOne(before: seq<Report>, now: seq<Report>, after: seq<Report>, rest: Entries, dir: Dir, base: string)
    requires Reported(before, now, rest, dir, base) && !rest.End?
    requires after == now + if rest.Folder? && rest.name !in IGNORED_DIRS then DirReports(rest.dir, Inside(base, rest.name)) else []
    ensures Reported(before, after, rest.rest, dir, base)
  {
    var here := if rest.Folder? && rest.name !in IGNORED_DIRS then DirReports(rest.dir, Inside(base, rest.name)) else [];
    assert EntryReports(rest, base) == here + EntryReports(rest.rest, base);
    assert now + (here + EntryReports(rest.rest, base)) == (now + here) + EntryReports(rest.rest, base);
  }

  // ---------------------------------------------------------------- the audit reports a directory once

  predicate ProperName(name: string) {
    name != "" && name != "." && '/' !in name
  }

  /** As directories are: names are proper, and no two entries of a directory share one. */
  predicate Proper(dir: Dir) {
    dir.Listed? ==> ProperEntries(dir.entries)
  }

  predicate ProperEntries(entries: Entries) {
    match entries
    case End => true
    case Other(name, rest) => ProperName(name) && !Named(rest, name) && ProperEntries(rest)
    case Folder(name, dir, rest) => ProperName(name) && !Named(rest, name) && Proper(dir) && ProperEntries(rest)
  }

  predicate Named(entries: Entries, name: string) {
    match entries
    case End => false
    case Other(other, rest) => other == name || Named(rest, name)
    case Folder(other, _, rest) => other == name || Named(rest, name)
  }

  /** A directory below the root: its path is neither empty nor the root's. */
  predicate BelowRoot(base: string) {
    base != "" && base != "."
  }

  function FirstName(path: string): string {
    if path == "" || path[0] == '/' then "" else [path[0]] + FirstName(path[1..])
  }

  lemma {:induction false} FirstNameOf(name: string, path: string)
    requires '/' !in name && name <= path && (|name| < |path| ==> path[|name|] == '/')
    ensures FirstName(path) == name
  {
    if name != "" {
      assert name[0] in name && forall c | c in name[1..] :: c in name;
      FirstNameOf(name[1..], path[1..]);
    }
  }

  function NameBehind(base: string, path: string): string {
    var start := if base == "" then 0 else |base| + 1;
    if start <= |path| then FirstName(path[start..]) else ""
  }

  /** What lies under an entry of a directory has the entry's name behind the directory's. */
  lemma EntryOf(base: string, name: string, path: string)
    requires base != "." && ProperName(name) && Under(Inside(base, name), path)
    ensures NameBehind(base, path) == name
  {
    var start := if base == "" then 0 else |base| + 1;
    assert Inside(base, name)[start..] == name;
    FirstNameOf(name, path[start..]);
  }

  ghost predicate AllUnder(base: string, reports: seq<Report>) {
    forall k | 0 <= k < |reports| :: reports[k].kind.DirectoryEntry? && BelowRoot(reports[k].path) && Under(base, reports[k].path)
  }

  /** Each report is under an entry of that name. */
  ghost predicate AllUnderEntries(base: string, entries: Entries, reports: seq<Report>) {
    forall k | 0 <= k < |reports| :: reports[k].kind.DirectoryEntry? && UnderEntry(base, entries, reports[k].path)
  }

  ghost predicate UnderEntry(base: string, entries: Entries, path: string) {
    exists name | ProperName(name) && Named(entries, name) :: Under(Inside(base, name), path)
  }

  ghost predicate DistinctPaths(reports: seq<Report>) {
    forall i, j | 0 <= i < j < |reports| :: reports[i].path != reports[j].path
  }

  lemma DirIsReportedOnce(dir: Dir, base: string)
    requires Proper(dir) && BelowRoot(base)
    ensures AllUnder(base, DirReports(dir, base)) && DistinctPaths(DirReports(dir, base))
    decreases dir
  {
    if dir.Listed? {
      EntriesAreReportedOnce(dir.entries, base);
      forall k | 0 <= k < |DirReports(dir, base)| ensures Under(base, DirReports(dir, base)[k].path) {
        var path := DirReports(dir, base)[k].path;
        var name :| ProperName(name) && Named(dir.entries, name) && Under(Inside(base, name), path);
        assert Under(base, Inside(base, name));
        UnderUnder(base, Inside(base, name), path);
      }
    }
  }

  lemma EntriesAreReportedOnce(entries: Entries, base: string)
    requires ProperEntries(entries) && base != "."
    ensures AllUnderEntries(base, entries, EntryReports(entries, base)) && DistinctPaths(EntryReports(entries, base))
    decreases entries
  {
    match entries
    case End =>
    case Other(name, rest) =>
      EntriesAreReportedOnce(rest, base);
      MoreEntries(base, rest, entries, EntryReports(rest, base));
    case Folder(name, dir, rest) =>
      EntriesAreReportedOnce(rest, base);
      MoreEntries(base, rest, entries, EntryReports(rest, base));
      if name !in IGNORED_DIRS {
        DirIsReportedOnce(dir, Inside(base, name));
        FolderApart(base, name, rest, DirReports(dir, Inside(base, name)), EntryReports(rest, base));
        FolderIsEntry(base, entries, DirReports(dir, Inside(base, name)));
      }
  }

  lemma MoreEntries(base: string, rest: Entries, entries: Entries, reports: seq<Report>)
    requires AllUnderEntries(base, rest, reports) && forall name | Named(rest, name) :: Named(entries, name)
    ensures AllUnderEntries(base, entries, reports)
  {
    forall k | 0 <= k < |reports| ensures UnderEntry(base, entries, reports[k].path) {
      assert UnderEntry(base, rest, reports[k].path);
    }
  }

  lemma FolderIsEntry(base: string, entries: Entries, reports: seq<Report>)
    requires entries.Folder? && ProperName(entries.name) && AllUnder(Inside(base, entries.name), reports)
    ensures AllUnderEntries(base, entries, reports)
  {
    assert Named(entries, entries.name);
  }

  lemma FolderApart(base: string, name: string, rest: Entries, here: seq<Report>, there: seq<Report>)
    requires base != "." && ProperName(name) && !Named(rest, name)
    requires AllUnder(Inside(base, name), here) && DistinctPaths(here)
    requires AllUnderEntries(base, rest, there) && DistinctPaths(there)
    ensures DistinctPaths(here + there)
  {
    forall i, j | 0 <= i < |here| && 0 <= j < |there| ensures here[i].path != there[j].path {
      assert UnderEntry(base, rest, there[j].path);
      var other :| ProperName(other) && Named(rest, other) && Under(Inside(base, other), there[j].path);
      EntryOf(base, name, here[i].path);
      EntryOf(base, other, there[j].path);
    }
  }

  /** An audit reports every directory it cannot list once; the root only by itself. */
  lemma AuditReportsOnce(root: Dir)
    requires Proper(root)
    ensures DistinctPaths(DirReports(root, "")) && forall r | r in DirReports(root, "") :: r.kind.DirectoryEntry?
    ensures (exists r | r in DirReports(root, "") :: r.path == ".") ==> |DirReports(root, "")| == 1
  {
    if root.Listed? {
      EntriesAreReportedOnce(root.entries, "");
      forall r | r in DirReports(root, "") ensures r.kind.DirectoryEntry? && r.path != "." {
        var k :| 0 <= k < |DirReports(root, "")| && DirReports(root, "")[k] == r;
        var name :| ProperName(name) && Named(root.entries, name) && Under(Inside("", name), r.path);
      }
    }
  }

  // ---------------------------------------------------------------- ledgers of reports

  function Entered(r: Report): Omission {
    Omission(r.path, r.kind, FaultReason(r.fault), ShortCode(r.fault))
  }

  lemma {:induction false} LedgerOfReports(reports: seq<Report>)
    ensures var ledger := RecordAll([], reports);
      && |ledger| == Fill(0, |reports|)
      && forall k | 0 <= k < |ledger| ::
           ledger[k] == Entered(reports[k]) || (ledger[k] == SENTINEL && k == MAX_SNAPSHOT_OMISSIONS - 1 && k + 1 < |reports|)
  {
    if reports != [] {
      LedgerOfReports(reports[..|reports| - 1]);
    }
  }

  lemma EnteredIsWellMade(r: Report)
    ensures WellMade(Entered(r)) && WellMade(SENTINEL)
  {
  }

  /** The audit's ledger is as the merging loop can rely on. */
  lemma AuditIsAudited(root: Dir)
    requires Proper(root)
    ensures Audited(RecordAll([], DirReports(root, "")))
  {
    var reports := DirReports(root, "");
    var audit := RecordAll([], reports);
    AuditReportsOnce(root);
    LedgerOfReports(reports);
    forall i, j | 0 <= i < j < |audit| ensures !SameKey(audit[i], audit[j]) {
      assert audit[i] == Entered(reports[i]) && reports[i] in reports;
    }
    forall o | o in audit ensures WellMade(o) && (RootGone(o) ==> |audit| == 1) {
      var k :| 0 <= k < |audit| && audit[k] == o;
      EnteredIsWellMade(reports[k]);
      assert reports[k] in reports;
    }
  }

  // ---------------------------------------------------------------- git's warnings

  /** A path git could not enumerate, relative to the repository's top level. */
  datatype Warning = Warning(kind: Kind, path: string)

  predicate StartsWith(s: string, front: string) {
    front <= s
  }

  function WithoutTrailingSlashes(s: string): (r: string)
    ensures r == "" || r[|r| - 1] != '/'
  {
    if s != "" && s[|s| - 1] == '/' then WithoutTrailingSlashes(s[..|s| - 1]) else s
  }

  function Trimmed(path: string): string {
    WithoutTrailingSlashes(if StartsWith(path, "./") then path[2..] else path)
  }

  function OrRoot(path: string): string {
    if path == "" then "." else path
  }

  /** `gitWarningPathRelativeToCwd`, with POSIX separators. */
  function Rebased(path: string, cwdPrefix: string): Option<string> {
    var value, prefix := OrRoot(Trimmed(path)), Trimmed(cwdPrefix);
    if StartsWith(path, "/") || value == ".." || StartsWith(value, "../") then None
    else if prefix == "" then Some(value)
    else if value == prefix then Some(".")
    else if StartsWith(value, prefix + "/") then Some(value[|prefix| + 1..])
    else None
  }

  /** A warning hides below the capture root exactly what it names below the top level, except that
      a directory around the capture root is not warned of any more. */
  lemma RebasedIsExact(path: string, cwdPrefix: string, x: string)
    requires !StartsWith(path, "/") && Trimmed(cwdPrefix) != ""
    requires var value := OrRoot(Trimmed(path)); value != ".." && !StartsWith(value, "../")
    requires OrRoot(Trimmed(path)) != Trimmed(cwdPrefix) + "/."
    ensures var value, prefix, rebased := OrRoot(Trimmed(path)), Trimmed(cwdPrefix), Rebased(path, cwdPrefix);
      Under(value, prefix + "/" + x)
      <==> (rebased.Some? && Under(rebased.value, x)) || (value != prefix && Under(value, prefix))
  {
    var value, prefix, rebased := OrRoot(Trimmed(path)), Trimmed(cwdPrefix), Rebased(path, cwdPrefix);
    var whole := prefix + "/" + x;
    if value != "." && value != prefix {
      if StartsWith(value, prefix + "/") {
        var q := rebased.value;
        assert value == prefix + "/" + q;
        assert whole[|prefix| + 1..] == x && value[|prefix| + 1..] == q;
      } else {
      }
    }
  }

  function WarningReports(warnings: seq<Warning>, cwdPrefix: string): seq<Report> {
    if warnings == [] then []
    else
      var w := warnings[|warnings| - 1];
      var path := Rebased(w.path, cwdPrefix);
      WarningReports(warnings[..|warnings| - 1], cwdPrefix)
      + (if path.Some? then [Report(w.kind, path.value, Fault(None))] else [])
  }

  lemma {:induction false} WarningsAreCodeless(warnings: seq<Warning>, cwdPrefix: string)
    ensures forall r | r in WarningReports(warnings, cwdPrefix) :: r.fault.code.None?
  {
    if warnings != [] {
      WarningsAreCodeless(warnings[..|warnings| - 1], cwdPrefix);
    }
  }

  lemma WarningLedger(warnings: seq<Warning>, cwdPrefix: string)
    ensures Codeless(RecordAll([], WarningReports(warnings, cwdPrefix)))
    ensures |RecordAll([], WarningReports(warnings, cwdPrefix))| <= MAX_SNAPSHOT_OMISSIONS
  {
    var reports := WarningReports(warnings, cwdPrefix);
    var ledger := RecordAll([], reports);
    WarningsAreCodeless(warnings, cwdPrefix);
    LedgerOfReports(reports);
    forall o | o in ledger ensures o.errorCode.None? && o.reason.Unreadable? {
      var k :| 0 <= k < |ledger| && ledger[k] == o;
      assert reports[k] in reports;
    }
  }

  // ---------------------------------------------------------------- what discovery leaves

  /** How the entries were discovered: git listed them without a warning; git warned, so that the
      directories were audited; or git gave no answer and the directories were walked. */
  datatype Discovery =
    | Quiet
    | Warned(warnings: seq<Warning>, cwdPrefix: string, root: Dir)
    | Walked(root: Dir)

  /** What was reported before any audit. */
  function Found(d: Discovery): seq<Report> {
    match d
    case Quiet => []
    case Warned(warnings, cwdPrefix, _) => WarningReports(warnings, cwdPrefix)
    case Walked(root) => DirReports(root, "")
  }

  /** What the audit reported. */
  function Audit(d: Discovery): seq<Report> {
    if d.Warned? then DirReports(d.root, "") else []
  }

  function Discovered(d: Discovery): seq<Omission> {
    MergedAll(RecordAll([], Found(d)), RecordAll([], Audit(d)))
  }

  predicate DiscoveryTruncated(d: Discovery) {
    || |Found(d)| > MAX_SNAPSHOT_OMISSIONS || |Audit(d)| > MAX_SNAPSHOT_OMISSIONS
    || Overflows(RecordAll([], Found(d)), RecordAll([], Audit(d)))
  }

  /** `discoverFiles`, as far as the ledger goes. */
  method DiscoverFiles(d: Discovery) returns (omissions: seq<Omission>, truncated: bool)
    ensures omissions == Discovered(d) && |omissions| <= MAX_SNAPSHOT_OMISSIONS
    ensures truncated <==> DiscoveryTruncated(d)
  {
    var found := new OmissionLedger([], false);
    match d {
      case Quiet => return [], false;
      case Walked(root) => WalkDirectories(root, "", found);
      case Warned(warnings, cwdPrefix, root) =>
        RecordWarnings(warnings, cwdPrefix, found);
        var audit := new OmissionLedger([], false);
        WalkDirectories(root, "", audit);
        assert [] + DirReports(root, "") == DirReports(root, "");
        omissions, truncated := MergeAudit(found.omissions, found.truncated, audit.omissions, audit.truncated);
        return;
    }
    omissions, truncated := found.omissions, found.truncated;
  }

  method RecordWarnings(warnings: seq<Warning>, cwdPrefix: string, ledger: OmissionLedger)
    requires ledger.Valid() && ledger.reports == []
    modifies ledger
    ensures ledger.Valid() && ledger.reports == WarningReports(warnings, cwdPrefix)
  {
    for i := 0 to |warnings|
      invariant ledger.Valid() && ledger.reports == WarningReports(warnings[..i], cwdPrefix)
    {
      assert warnings[..i + 1][..i] == warnings[..i];
      var path := Rebased(warnings[i].path, cwdPrefix);
      if path.Some? {
        ledger.Record(warnings[i].kind, path.value, Fault(None));
      }
    }
    assert warnings[..|warnings|] == warnings;
  }

  // ---------------------------------------------------------------- what discovery hides

  /** No two entries of a directory share a name, as far as directories were read. */
  predicate ProperDiscovery(d: Discovery) {
    d.Warned? ==> Proper(d.root)
  }

  /** The path is under a directory that was found unreadable and that no audit finds gone, or an
      unreadable directory had no room in the ledger. */
  predicate DiscoveryHides(d: Discovery, path: string) {
    if d.Warned? then
      var warned, audit := RecordAll([], Found(d)), RecordAll([], Audit(d));
      Crowded(warned, audit) || MergeHides(warned, audit, path)
    else ReportsHide(0, Found(d), path)
  }

  /** Main result on discovery: exactly these paths are hidden by the ledger it leaves. */
  lemma DiscoveryHidesIff(d: Discovery, path: string)
    requires ProperDiscovery(d)
    ensures Hidden(Discovered(d), path) <==> DiscoveryHides(d, path)
  {
    if d.Warned? {
      WarningLedger(d.warnings, d.cwdPrefix);
      AuditIsAudited(d.root);
      MergedHidesIff(RecordAll([], Found(d)), RecordAll([], Audit(d)), path);
    } else {
      RecordAllHidesIff([], Found(d), path);
    }
  }

  /** Discovery hides all that an audit, or the walk, found unreadable, in every case. */
  lemma ReadingsStayHidden(d: Discovery, r: Report)
    requires ProperDiscovery(d) && UnreadableDirectory(r) && r in if d.Warned? then Audit(d) else Found(d)
    ensures Hidden(Discovered(d), r.path)
  {
    if d.Warned? {
      var warned, audit := RecordAll([], Found(d)), RecordAll([], Audit(d));
      WarningLedger(d.warnings, d.cwdPrefix);
      AuditIsAudited(d.root);
      AuditStaysHidden(warned, audit);
      EveryReportStaysCovered([], Audit(d));
      assert Hidden(audit, r.path);
    } else {
      EveryReportStaysCovered([], Found(d));
      assert Covered(Discovered(d), r.path);
    }
  }
}
