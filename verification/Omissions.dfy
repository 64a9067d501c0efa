/** The bounded ledger of entries a capture could not take in (src/capture.ts). */
module Omissions {
  import opened Options

  datatype Reason = Missing | Unreadable

  datatype Kind = FileEntry | DirectoryEntry

  /** A thrown value, known by its errno code if it has a non-empty one. */
  datatype Fault = Fault(code: Option<string>)

  datatype Omission = Omission(path: string, kind: Kind, reason: Reason, errorCode: Option<string>)

  const MAX_SNAPSHOT_OMISSIONS := 1000
  const MAX_ERROR_CODE_LENGTH := 40

  function FaultReason(f: Fault): Reason {
    if f.code == Some("ENOENT") || f.code == Some("ENOTDIR") then Missing else Unreadable
  }

  function ShortCode(f: Fault): Option<string> {
    match f.code
    case Some(code) => Some(if |code| > MAX_ERROR_CODE_LENGTH then code[..MAX_ERROR_CODE_LENGTH] else code)
    case None => None
  }

  const SENTINEL := Omission(".", DirectoryEntry, Unreadable, None)

  predicate IsSentinel(o: Omission) {
    o.path == "." && o.kind.DirectoryEntry? && o.reason.Unreadable?
  }

  predicate HasSentinel(omissions: seq<Omission>) {
    exists k | 0 <= k < |omissions| :: IsSentinel(omissions[k])
  }

  // ---------------------------------------------------------------- what a record hides

  /** The path is the directory or lies below it; "." is the capture root. */
  predicate Under(dir: string, path: string) {
    dir == "." || dir == "" || path == dir || (|dir| < |path| && path[..|dir|] == dir && path[|dir|] == '/')
  }

  /** A path is under a directory exactly when it is that directory, or continues it behind a slash. */
  lemma UnderIff(dir: string, path: string)
    ensures Under(dir, path) <==> dir in {".", ""} || path == dir || exists rest :: path == dir + ("/" + rest)
  {
    if |dir| < |path| && path[..|dir|] == dir && path[|dir|] == '/' {
      assert path == dir + ("/" + path[|dir| + 1..]);
    }
    if rest :| path == dir + ("/" + rest) {
      assert path[..|dir|] == dir && path[|dir|] == '/';
    }
  }

  predicate HiddenBy(o: Omission, path: string) {
    o.kind.DirectoryEntry? && o.reason.Unreadable? && Under(o.path, path)
  }

  predicate Hidden(omissions: seq<Omission>, path: string) {
    exists k | 0 <= k < |omissions| :: HiddenBy(omissions[k], path)
  }

  /** Every path below the directory is hidden. */
  ghost predicate Covered(omissions: seq<Omission>, dir: string) {
    forall path | Under(dir, path) :: Hidden(omissions, path)
  }

  /** Whatever the first ledger hides, the second does. */
  ghost predicate HidesAll(weaker: seq<Omission>, stronger: seq<Omission>) {
    forall path | Hidden(weaker, path) :: Hidden(stronger, path)
  }

  // ---------------------------------------------------------------- recording

  /** An omission as it reaches the ledger. */
  datatype Report = Report(kind: Kind, path: string, fault: Fault)

  predicate UnreadableDirectory(r: Report) {
    r.kind.DirectoryEntry? && FaultReason(r.fault).Unreadable?
  }

  /** The ledger after a report: within the bound it is appended; past the bound only unreadable
      directories count, and the root sentinel stands for all of them. */
  function Recorded(omissions: seq<Omission>, r: Report): (after: seq<Omission>)
    ensures |omissions| <= MAX_SNAPSHOT_OMISSIONS ==> |after| <= MAX_SNAPSHOT_OMISSIONS
  {
    if |omissions| < MAX_SNAPSHOT_OMISSIONS then
      omissions + [Omission(r.path, r.kind, FaultReason(r.fault), ShortCode(r.fault))]
    else if !UnreadableDirectory(r) || HasSentinel(omissions) then omissions
    else omissions[|omissions| - 1 := SENTINEL]
  }

  lemma HiddenAt(omissions: seq<Omission>, k: nat, path: string)
    requires k < |omissions| && HiddenBy(omissions[k], path)
    ensures Hidden(omissions, path)
  {
  }

  /** A report never uncovers a path, even when it overwrites the last record. */
  lemma RecordHidesAll(omissions: seq<Omission>, r: Report)
    ensures HidesAll(omissions, Recorded(omissions, r))
  {
    var after := Recorded(omissions, r);
    forall path | Hidden(omissions, path) ensures Hidden(after, path) {
      var k :| 0 <= k < |omissions| && HiddenBy(omissions[k], path);
      if after != omissions && |omissions| >= MAX_SNAPSHOT_OMISSIONS {
        HiddenAt(after, |after| - 1, path);
      } else {
        HiddenAt(after, k, path);
      }
    }
  }

  /** Every path below an unreadable directory is hidden from its report on. */
  lemma RecordCovers(omissions: seq<Omission>, r: Report)
    requires UnreadableDirectory(r)
    ensures Covered(Recorded(omissions, r), r.path)
  {
    var after := Recorded(omissions, r);
    forall path | Under(r.path, path) ensures Hidden(after, path) {
      if |omissions| < MAX_SNAPSHOT_OMISSIONS {
        HiddenAt(after, |omissions|, path);
      } else if HasSentinel(omissions) {
        var k :| 0 <= k < |omissions| && IsSentinel(omissions[k]);
        HiddenAt(after, k, path);
      } else {
        HiddenAt(after, |after| - 1, path);
      }
    }
  }

  /** Every directory that the reports call unreadable is covered. */
  ghost predicate CoversAll(omissions: seq<Omission>, reports: seq<Report>) {
    forall r | r in reports && UnreadableDirectory(r) :: Covered(omissions, r.path)
  }

  lemma StillCovered(before: seq<Omission>, after: seq<Omission>, reports: seq<Report>)
    requires HidesAll(before, after) && CoversAll(before, reports)
    ensures CoversAll(after, reports)
  {
    forall r | r in reports && UnreadableDirectory(r) ensures Covered(after, r.path) {
      forall path | Under(r.path, path) ensures Hidden(after, path) {
        assert Hidden(before, path);
      }
    }
  }

  function RecordAll(omissions: seq<Omission>, reports: seq<Report>): seq<Omission> {
    if reports == [] then omissions
    else Recorded(RecordAll(omissions, reports[..|reports| - 1]), reports[|reports| - 1])
  }

  /** Main result: after any reports, the ledger is within its bound and still hides every path
      below every directory ever reported unreadable. */
  lemma {:induction false} EveryReportStaysCovered(omissions: seq<Omission>, reports: seq<Report>)
    requires |omissions| <= MAX_SNAPSHOT_OMISSIONS
    ensures |RecordAll(omissions, reports)| <= MAX_SNAPSHOT_OMISSIONS
    ensures HidesAll(omissions, RecordAll(omissions, reports))
    ensures CoversAll(RecordAll(omissions, reports), reports)
  {
    if reports != [] {
      var n := |reports| - 1;
      var before := RecordAll(omissions, reports[..n]);
      EveryReportStaysCovered(omissions, reports[..n]);
      RecordHidesAll(before, reports[n]);
      StillCovered(before, RecordAll(omissions, reports), reports[..n]);
      if UnreadableDirectory(reports[n]) {
        RecordCovers(before, reports[n]);
      }
      assert reports == reports[..n] + [reports[n]];
    }
  }

  /** What one report hides: what lies under its directory, or everything if the ledger is full. */
  lemma RecordedHidesIff(omissions: seq<Omission>, r: Report, path: string)
    ensures Hidden(Recorded(omissions, r), path) <==>
      Hidden(omissions, path) || (UnreadableDirectory(r) && (Under(r.path, path) || |omissions| >= MAX_SNAPSHOT_OMISSIONS))
  {
    var after := Recorded(omissions, r);
    RecordHidesAll(omissions, r);
    if UnreadableDirectory(r) && |omissions| >= MAX_SNAPSHOT_OMISSIONS {
      FullPutsSentinel(omissions, r);
      var k :| 0 <= k < |after| && IsSentinel(after[k]);
      HiddenAt(after, k, path);
    } else if UnreadableDirectory(r) && Under(r.path, path) {
      HiddenAt(after, |omissions|, path);
    }
  }

  lemma FullPutsSentinel(omissions: seq<Omission>, r: Report)
    requires |omissions| >= MAX_SNAPSHOT_OMISSIONS && UnreadableDirectory(r)
    ensures HasSentinel(Recorded(omissions, r))
  {
    if !HasSentinel(omissions) {
      assert IsSentinel(Recorded(omissions, r)[|omissions| - 1]);
    }
  }

  /** The reports hide the path, by a directory around it or by having overflowed the ledger. */
  predicate ReportsHide(size: nat, reports: seq<Report>, path: string) {
    exists k | 0 <= k < |reports| ::
      UnreadableDirectory(reports[k]) && (Under(reports[k].path, path) || size + k >= MAX_SNAPSHOT_OMISSIONS)
  }

  /** Exactly what reports hide. */
  lemma {:induction false} RecordAllHidesIff(omissions: seq<Omission>, reports: seq<Report>, path: string)
    requires |omissions| <= MAX_SNAPSHOT_OMISSIONS
    ensures Hidden(RecordAll(omissions, reports), path)
      <==> Hidden(omissions, path) || ReportsHide(|omissions|, reports, path)
  {
    if reports != [] {
      var n := |reports| - 1;
      var front := reports[..n];
      RecordAllHidesIff(omissions, front, path);
      LedgerFills(omissions, front);
      RecordedHidesIff(RecordAll(omissions, front), reports[n], path);
      if ReportsHide(|omissions|, front, path) {
        var k :| 0 <= k < n && UnreadableDirectory(front[k])
          && (Under(front[k].path, path) || |omissions| + k >= MAX_SNAPSHOT_OMISSIONS);
        assert UnreadableDirectory(reports[k]);
      }
      assert forall k | 0 <= k < n :: reports[k] == front[k];
    }
  }

  /** The size of a ledger after so many more reports. */
  function Fill(size: nat, more: nat): nat {
    if size + more <= MAX_SNAPSHOT_OMISSIONS then size + more
    else if size <= MAX_SNAPSHOT_OMISSIONS then MAX_SNAPSHOT_OMISSIONS else size
  }

  /** One of them finds the ledger full. */
  predicate RunsFull(size: nat, more: nat) {
    more > 0 && size + more > MAX_SNAPSHOT_OMISSIONS
  }

  lemma {:induction false} LedgerFills(omissions: seq<Omission>, reports: seq<Report>)
    ensures |RecordAll(omissions, reports)| == Fill(|omissions|, |reports|)
  {
    if reports != [] {
      LedgerFills(omissions, reports[..|reports| - 1]);
    }
  }

  // ---------------------------------------------------------------- the ledger as the source mutates it

  class OmissionLedger {
    var omissions: seq<Omission>
    var truncated: bool
    ghost var reports: seq<Report>
    ghost const initial: seq<Omission>
    ghost const initialTruncated: bool

    ghost predicate Valid()
      reads this
    {
      && |omissions| <= MAX_SNAPSHOT_OMISSIONS && |initial| <= MAX_SNAPSHOT_OMISSIONS
      && omissions == RecordAll(initial, reports)
      && truncated == (initialTruncated || RunsFull(|initial|, |reports|))
    }

    constructor (discovered: seq<Omission>, discoveredTruncated: bool)
      requires |discovered| <= MAX_SNAPSHOT_OMISSIONS
      ensures Valid() && omissions == initial == discovered && reports == []
      ensures truncated == initialTruncated == discoveredTruncated
    {
      omissions, truncated := discovered, discoveredTruncated;
      reports, initial, initialTruncated := [], discovered, discoveredTruncated;
    }

    method MarkUnreadableDirectorySentinel()
      requires |omissions| <= MAX_SNAPSHOT_OMISSIONS
      modifies `omissions
      ensures |omissions| <= MAX_SNAPSHOT_OMISSIONS && HasSentinel(omissions)
      ensures omissions == if HasSentinel(old(omissions)) then old(omissions)
                           else if |old(omissions)| < MAX_SNAPSHOT_OMISSIONS then old(omissions) + [SENTINEL]
                           else old(omissions)[|old(omissions)| - 1 := SENTINEL]
    {
      var i := 0;
      while i < |omissions|
        invariant i <= |omissions| && omissions == old(omissions)
        invariant forall k | 0 <= k < i :: !IsSentinel(omissions[k])
      {
        if IsSentinel(omissions[i]) {
          return;
        }
        i := i + 1;
      }
      if |omissions| >= MAX_SNAPSHOT_OMISSIONS {
        omissions := omissions[|omissions| - 1 := SENTINEL];
      } else {
        omissions := omissions + [SENTINEL];
      }
      assert IsSentinel(omissions[|omissions| - 1]);
    }

    /** `recordSnapshotOmission`. */
    method Record(kind: Kind, path: string, fault: Fault)
      requires Valid()
      modifies this
      ensures Valid() && reports == old(reports) + [Report(kind, path, fault)]
      ensures omissions == Recorded(old(omissions), Report(kind, path, fault))
      ensures truncated == (old(truncated) || |old(omissions)| >= MAX_SNAPSHOT_OMISSIONS)
    {
      ghost var report := Report(kind, path, fault);
      LedgerFills(initial, reports);
      assert (reports + [report])[..|reports|] == reports;
      reports := reports + [report];
      if |omissions| >= MAX_SNAPSHOT_OMISSIONS {
        var unreadableDirectory := kind.DirectoryEntry? && FaultReason(fault).Unreadable?;
        if unreadableDirectory {
          MarkUnreadableDirectorySentinel();
        }
        truncated := true;
        return;
      }
      omissions := omissions + [Omission(path, kind, FaultReason(fault), ShortCode(fault))];
    }

    /** `isHiddenByUnreadableDirectory`. */
    method IsHidden(path: string) returns (b: bool)
      requires Valid()
      ensures b <==> Hidden(omissions, path)
      ensures (exists r | r in reports :: UnreadableDirectory(r) && Under(r.path, path)) ==> b
    {
      EveryReportStaysCovered(initial, reports);
      for i := 0 to |omissions|
        invariant forall k | 0 <= k < i :: !HiddenBy(omissions[k], path)
      {
        if HiddenBy(omissions[i], path) {
          return true;
        }
      }
      b := false;
    }
  }

  // ---------------------------------------------------------------- merging the audit of git's warnings

  predicate SameKey(a: Omission, b: Omission) {
    a.kind == b.kind && a.path == b.path
  }

  /** The first record of the ledger for the same entry, or the ledger's length. */
  function IndexOfKey(omissions: seq<Omission>, o: Omission): (k: nat)
    ensures k <= |omissions| && (k < |omissions| ==> SameKey(omissions[k], o))
    ensures forall j | 0 <= j < k :: !SameKey(omissions[j], o)
  {
    if omissions == [] || SameKey(omissions[0], o) then 0 else IndexOfKey(omissions[1..], o) + 1
  }

  /** One audit record merged: a record without an errno code gives way to one that has it. */
  function MergedOne(omissions: seq<Omission>, o: Omission): seq<Omission> {
    var k := IndexOfKey(omissions, o);
    if k == |omissions| then Recorded(omissions, Report(o.kind, o.path, Fault(o.errorCode)))
    else if o.errorCode.Some? && omissions[k].errorCode.None? then omissions[k := o]
    else omissions
  }

  function MergedAll(omissions: seq<Omission>, audit: seq<Omission>): seq<Omission> {
    if audit == [] then omissions else MergedOne(MergedAll(omissions, audit[..|audit| - 1]), audit[|audit| - 1])
  }

  /** The audit's record replaces one that says the directory is unreadable by one that says it is
      gone. */
  predicate Uncovers(omissions: seq<Omission>, o: Omission) {
    var k := IndexOfKey(omissions, o);
    && k < |omissions| && o.errorCode.Some? && omissions[k].errorCode.None?
    && o.kind.DirectoryEntry? && o.reason.Missing? && omissions[k].reason.Unreadable?
  }

  lemma MergeHidesAll(omissions: seq<Omission>, o: Omission)
    requires !Uncovers(omissions, o)
    ensures HidesAll(omissions, MergedOne(omissions, o))
  {
    var k := IndexOfKey(omissions, o);
    if k == |omissions| {
      RecordHidesAll(omissions, Report(o.kind, o.path, Fault(o.errorCode)));
    } else {
      var after := MergedOne(omissions, o);
      forall path | Hidden(omissions, path) ensures Hidden(after, path) {
        var j :| 0 <= j < |omissions| && HiddenBy(omissions[j], path);
        HiddenAt(after, j, path);
      }
    }
  }

  lemma UnderUnder(outer: string, inner: string, path: string)
    requires Under(outer, inner) && Under(inner, path)
    ensures Under(outer, path)
  {
  }

  predicate OtherHides(omissions: seq<Omission>, k: nat, path: string) {
    exists j | 0 <= j < |omissions| :: j != k && HiddenBy(omissions[j], path)
  }

  /** Merging keeps everything hidden exactly when no replacement turns an unreadable directory,
      which no other record hides, into a missing one. */
  lemma MergeHidesAllIff(omissions: seq<Omission>, o: Omission)
    ensures HidesAll(omissions, MergedOne(omissions, o))
      <==> !Uncovers(omissions, o) || OtherHides(omissions, IndexOfKey(omissions, o), o.path)
  {
    var k := IndexOfKey(omissions, o);
    var after := MergedOne(omissions, o);
    if !Uncovers(omissions, o) {
      MergeHidesAll(omissions, o);
    } else if OtherHides(omissions, k, o.path) {
      var j :| 0 <= j < |omissions| && j != k && HiddenBy(omissions[j], o.path);
      forall path | Hidden(omissions, path) ensures Hidden(after, path) {
        var i :| 0 <= i < |omissions| && HiddenBy(omissions[i], path);
        if i == k {
          UnderUnder(omissions[j].path, o.path, path);
        }
        HiddenAt(after, if i == k then j else i, path);
      }
    } else {
      HiddenAt(omissions, k, o.path);
    }
  }

  lemma HidesAllIff(weaker: seq<Omission>, stronger: seq<Omission>)
    ensures HidesAll(weaker, stronger) <==> forall k | 0 <= k < |weaker| && Hides(weaker[k]) :: Hidden(stronger, weaker[k].path)
  {
    if forall k | 0 <= k < |weaker| && Hides(weaker[k]) :: Hidden(stronger, weaker[k].path) {
      forall path | Hidden(weaker, path) ensures Hidden(stronger, path) {
        var k :| 0 <= k < |weaker| && HiddenBy(weaker[k], path);
        assert Hides(weaker[k]);
        var j :| 0 <= j < |stronger| && HiddenBy(stronger[j], weaker[k].path);
        UnderUnder(stronger[j].path, weaker[k].path, path);
        HiddenAt(stronger, j, path);
      }
    } else {
      var k :| 0 <= k < |weaker| && Hides(weaker[k]) && !Hidden(stronger, weaker[k].path);
      HiddenAt(weaker, k, weaker[k].path);
    }
  }

  predicate Hides(o: Omission) {
    o.kind.DirectoryEntry? && o.reason.Unreadable?
  }

  // ---------------------------------------------------------------- what the whole merging loop hides

  /** At most one record of each entry. */
  ghost predicate OnePerEntry(omissions: seq<Omission>) {
    forall i, j | 0 <= i < j < |omissions| :: !SameKey(omissions[i], omissions[j])
  }

  /** A ledger of git's warnings: no errno code, hence nothing known to be gone. */
  ghost predicate Codeless(omissions: seq<Omission>) {
    forall o | o in omissions :: o.errorCode.None? && o.reason.Unreadable?
  }

  /** The reason and the errno code are those of a fault. */
  predicate WellMade(o: Omission) {
    o.reason == FaultReason(Fault(o.errorCode)) && o.errorCode == ShortCode(Fault(o.errorCode))
  }

  predicate RootGone(o: Omission) {
    o.kind.DirectoryEntry? && o.path == "." && o.reason.Missing?
  }

  /** A ledger of an audit: one record per entry; if the root is gone there was nothing else to visit. */
  ghost predicate Audited(audit: seq<Omission>) {
    && OnePerEntry(audit)
    && (forall o | o in audit :: WellMade(o))
    && (forall o | o in audit && RootGone(o) :: |audit| == 1)
  }

  predicate Holds(omissions: seq<Omission>, o: Omission) {
    exists k | 0 <= k < |omissions| :: SameKey(omissions[k], o)
  }

  /** The audit found the entry gone. */
  predicate FoundGone(audit: seq<Omission>, o: Omission) {
    exists k | 0 <= k < |audit| :: SameKey(audit[k], o) && audit[k].reason.Missing?
  }

  /** The ledger has the entry a second time. */
  predicate Twice(omissions: seq<Omission>, o: Omission) {
    exists k | IndexOfKey(omissions, o) < k < |omissions| :: SameKey(omissions[k], o)
  }

  /** How many audit records are of entries without a warning. */
  function Unwarned(warned: seq<Omission>, audit: seq<Omission>): nat {
    if audit == [] then 0
    else Unwarned(warned, audit[..|audit| - 1]) + if Holds(warned, audit[|audit| - 1]) then 0 else 1
  }

  /** The audit reports an unreadable directory for which there is no room left: the sentinel has
      to stand for it. */
  predicate Crowded(warned: seq<Omission>, audit: seq<Omission>) {
    exists k | 0 <= k < |audit| ::
      Hides(audit[k]) && !Holds(warned, audit[k]) && |warned| + Unwarned(warned, audit[..k]) >= MAX_SNAPSHOT_OMISSIONS
  }

  /** Warnings or audit call the directory unreadable, and the audit does not find it gone; of two
      warnings on one entry only the first can be replaced. */
  predicate KeepsHiding(warned: seq<Omission>, audit: seq<Omission>, o: Omission) {
    && (o in warned || o in audit) && Hides(o)
    && (!FoundGone(audit, o) || Twice(warned, o))
  }

  /** The directories that the merged ledger hides things by. */
  predicate MergeHides(warned: seq<Omission>, audit: seq<Omission>, path: string) {
    || (exists k | 0 <= k < |warned| :: KeepsHiding(warned, audit, warned[k]) && Under(warned[k].path, path))
    || (exists k | 0 <= k < |audit| :: KeepsHiding(warned, audit, audit[k]) && Under(audit[k].path, path))
  }

  /** The ledger while room lasts: the warnings in their places, some first record of an entry
      given way to the audit's record with a code, and behind them audit records of other entries. */
  ghost predicate Merging(warned: seq<Omission>, audit: seq<Omission>, merged: seq<Omission>) {
    && |warned| <= |merged| <= MAX_SNAPSHOT_OMISSIONS
    && (|merged| < MAX_SNAPSHOT_OMISSIONS ==> |merged| == |warned| + Unwarned(warned, audit))
    && |merged| <= |warned| + Unwarned(warned, audit)
    && (forall k | 0 <= k < |warned| :: InPlace(warned, audit, merged, k))
    && (forall k | |warned| <= k < |merged| :: merged[k] in audit && !Holds(warned, merged[k]))
    && (forall j | 0 <= j < |audit| :: Landed(warned, merged, audit[j]))
  }

  ghost predicate InPlace(warned: seq<Omission>, audit: seq<Omission>, merged: seq<Omission>, k: nat)
    requires k < |warned| <= |merged|
  {
    && SameKey(merged[k], warned[k])
    && (merged[k] == warned[k] || (k == IndexOfKey(warned, warned[k]) && merged[k] in audit))
  }

  ghost predicate Landed(warned: seq<Omission>, merged: seq<Omission>, o: Omission)
    requires |warned| <= |merged|
  {
    if Holds(warned, o) then o.errorCode.Some? ==> merged[IndexOfKey(warned, o)] == o
    else Hides(o) ==> exists k | |warned| <= k < |merged| :: merged[k] == o
  }

  /** Where a further audit record finds its entry: at the warnings' place for it, or nowhere. */
  lemma PlaceOf(warned: seq<Omission>, audit: seq<Omission>, merged: seq<Omission>, o: Omission)
    requires Merging(warned, audit, merged) && forall a | a in audit :: !SameKey(a, o)
    ensures IndexOfKey(merged, o) == if Holds(warned, o) then IndexOfKey(warned, o) else |merged|
  {
    var m := IndexOfKey(warned, o);
    forall j | 0 <= j < |warned| ensures SameKey(merged[j], o) <==> SameKey(warned[j], o) {
      assert InPlace(warned, audit, merged, j);
    }
    if m < |warned| {
      assert SameKey(merged[m], o);
    }
  }

  lemma ReplaceWarning(warned: seq<Omission>, audit: seq<Omission>, merged: seq<Omission>, o: Omission)
    requires Codeless(warned) && Merging(warned, audit, merged) && (forall a | a in audit :: !SameKey(a, o))
    requires Holds(warned, o)
    ensures Merging(warned, audit + [o], MergedOne(merged, o))
  {
    PlaceOf(warned, audit, merged, o);
    var m, more, after := IndexOfKey(warned, o), audit + [o], MergedOne(merged, o);
    assert more[..|audit|] == audit;
    assert InPlace(warned, audit, merged, m) && merged[m] == warned[m];
    forall k | 0 <= k < |warned| ensures InPlace(warned, more, after, k) {
      assert InPlace(warned, audit, merged, k);
      if k == m {
        assert IndexOfKey(warned, warned[m]) == m;
      }
    }
    forall j | 0 <= j < |more| ensures Landed(warned, after, more[j]) {
      if j < |audit| {
        assert Landed(warned, merged, audit[j]) && audit[j] in audit;
        LandedElsewhere(warned, merged, after, audit[j], m);
      }
    }
  }

  lemma LandedElsewhere(warned: seq<Omission>, merged: seq<Omission>, after: seq<Omission>, o: Omission, m: nat)
    requires |warned| <= |merged| <= |after| && m < |warned| && Landed(warned, merged, o) && !SameKey(warned[m], o)
    requires forall k | 0 <= k < |merged| && k != m :: after[k] == merged[k]
    ensures Landed(warned, after, o)
  {
    if !Holds(warned, o) && Hides(o) {
      var k :| |warned| <= k < |merged| && merged[k] == o;
      assert after[k] == o;
    }
  }

  lemma LandedBefore(warned: seq<Omission>, merged: seq<Omission>, after: seq<Omission>, o: Omission)
    requires |warned| <= |merged| && merged <= after && Landed(warned, merged, o)
    ensures Landed(warned, after, o)
  {
    if !Holds(warned, o) && Hides(o) {
      var k :| |warned| <= k < |merged| && merged[k] == o;
      assert after[k] == o;
    }
  }

  lemma AppendAudited(warned: seq<Omission>, audit: seq<Omission>, merged: seq<Omission>, o: Omission)
    requires Merging(warned, audit, merged) && (forall a | a in audit :: !SameKey(a, o))
    requires !Holds(warned, o) && WellMade(o)
    requires |merged| < MAX_SNAPSHOT_OMISSIONS || !Hides(o)
    ensures Merging(warned, audit + [o], MergedOne(merged, o))
  {
    PlaceOf(warned, audit, merged, o);
    var more, after := audit + [o], MergedOne(merged, o);
    assert more[..|audit|] == audit;
    assert |merged| < MAX_SNAPSHOT_OMISSIONS ==> after == merged + [o];
    assert |merged| >= MAX_SNAPSHOT_OMISSIONS ==> after == merged;
    forall k | 0 <= k < |warned| ensures InPlace(warned, more, after, k) {
      assert InPlace(warned, audit, merged, k);
    }
    forall j | 0 <= j < |more| ensures Landed(warned, after, more[j]) {
      if j < |audit| {
        assert Landed(warned, merged, audit[j]);
        LandedBefore(warned, merged, after, audit[j]);
      } else if |merged| < MAX_SNAPSHOT_OMISSIONS {
        assert after[|merged|] == o;
      }
    }
  }

  lemma PrefixAudited(audit: seq<Omission>, n: nat)
    requires Audited(audit) && n < |audit|
    ensures OnePerEntry(audit[..n]) && WellMade(audit[n]) && forall a | a in audit[..n] :: !SameKey(a, audit[n])
  {
    assert audit[n] in audit;
  }

  /** As long as no unreadable directory is crowded out. */
  lemma {:induction false} MergingHolds(warned: seq<Omission>, audit: seq<Omission>, n: nat)
    requires |warned| <= MAX_SNAPSHOT_OMISSIONS && Codeless(warned) && Audited(audit) && n <= |audit|
    requires !Crowded(warned, audit)
    ensures Merging(warned, audit[..n], MergedAll(warned, audit[..n]))
  {
    if n > 0 {
      var m, o := n - 1, audit[n - 1];
      var merged := MergedAll(warned, audit[..m]);
      MergingHolds(warned, audit, m);
      PrefixAudited(audit, m);
      assert audit[..n] == audit[..m] + [o];
      assert audit[..n][..m] == audit[..m];
      if Holds(warned, o) {
        ReplaceWarning(warned, audit[..m], merged, o);
      } else {
        AppendAudited(warned, audit[..m], merged, o);
      }
    } else {
      assert forall k | 0 <= k < |warned| :: InPlace(warned, audit[..0], warned, k);
    }
  }

  /** What hides in the merged ledger are the directories that keep hiding. */
  lemma MergingHidesOnly(warned: seq<Omission>, audit: seq<Omission>, merged: seq<Omission>, k: nat)
    requires Codeless(warned) && Audited(audit) && Merging(warned, audit, merged)
    requires k < |merged| && Hides(merged[k])
    ensures KeepsHiding(warned, audit, merged[k])
  {
    if merged[k] in audit {
      var i :| 0 <= i < |audit| && audit[i] == merged[k];
      assert forall j | 0 <= j < |audit| && SameKey(audit[j], merged[k]) :: j == i;
    } else {
      assert InPlace(warned, audit, merged, k) && merged[k] == warned[k];
      if FoundGone(audit, warned[k]) {
        var j :| 0 <= j < |audit| && SameKey(audit[j], warned[k]) && audit[j].reason.Missing?;
        assert audit[j] in audit && Landed(warned, merged, audit[j]);
        SameIndex(warned, audit[j], warned[k]);
      }
    }
  }

  lemma {:induction false} SameIndex(omissions: seq<Omission>, a: Omission, b: Omission)
    requires SameKey(a, b)
    ensures IndexOfKey(omissions, a) == IndexOfKey(omissions, b)
  {
    if omissions != [] {
      SameIndex(omissions[1..], a, b);
    }
  }

  /** And they all do: each has a record of its entry that hides. */
  lemma MergingHidesEach(warned: seq<Omission>, audit: seq<Omission>, merged: seq<Omission>, o: Omission) returns (k: nat)
    requires Codeless(warned) && Audited(audit) && Merging(warned, audit, merged) && KeepsHiding(warned, audit, o)
    ensures k < |merged| && SameKey(merged[k], o) && Hides(merged[k])
  {
    if !Holds(warned, o) {
      var j :| 0 <= j < |audit| && audit[j] == o;
      assert Landed(warned, merged, audit[j]);
      k :| |warned| <= k < |merged| && merged[k] == o;
    } else if Twice(warned, o) {
      k :| IndexOfKey(warned, o) < k < |warned| && SameKey(warned[k], o);
      assert InPlace(warned, audit, merged, k);
      SameIndex(warned, warned[k], o);
      assert warned[k] in warned;
    } else {
      k := IndexOfKey(warned, o);
      assert InPlace(warned, audit, merged, k);
      assert warned[k] in warned;
      if merged[k] in audit {
        var i :| 0 <= i < |audit| && audit[i] == merged[k];
        assert !FoundGone(audit, o) && SameKey(audit[i], o);
      }
    }
  }

  lemma {:induction false} SentinelStays(warned: seq<Omission>, audit: seq<Omission>, n: nat, m: nat)
    requires n <= m <= |audit| && forall o | o in audit :: !RootGone(o)
    requires HasSentinel(MergedAll(warned, audit[..n]))
    ensures HasSentinel(MergedAll(warned, audit[..m]))
  {
    if n < m {
      SentinelStays(warned, audit, n, m - 1);
      var before, o := MergedAll(warned, audit[..m - 1]), audit[m - 1];
      assert audit[..m][..m - 1] == audit[..m - 1] && o in audit;
      var k :| 0 <= k < |before| && IsSentinel(before[k]);
      assert IsSentinel(MergedOne(before, o)[k]);
    }
  }

  /** Until then an audit record without a warning finds no record of its entry. */
  lemma UnwarnedIsNew(warned: seq<Omission>, front: seq<Omission>, o: Omission)
    requires |warned| <= MAX_SNAPSHOT_OMISSIONS && Codeless(warned) && Audited(front) && !Crowded(warned, front)
    requires (forall a | a in front :: !SameKey(a, o)) && !Holds(warned, o)
    ensures var before := MergedAll(warned, front);
      && IndexOfKey(before, o) == |before| && (|before| < MAX_SNAPSHOT_OMISSIONS ==> |before| == |warned| + Unwarned(warned, front))
  {
    MergingHolds(warned, front, |front|);
    assert front[..|front|] == front;
    PlaceOf(warned, front, MergedAll(warned, front), o);
  }

  /** The first unreadable directory without room puts the sentinel in place. */
  lemma CrowdedPutsSentinel(warned: seq<Omission>, audit: seq<Omission>, n: nat)
    requires |warned| <= MAX_SNAPSHOT_OMISSIONS && Codeless(warned) && Audited(audit) && n < |audit|
    requires !Crowded(warned, audit[..n]) && Hides(audit[n]) && !Holds(warned, audit[n])
    requires |warned| + Unwarned(warned, audit[..n]) >= MAX_SNAPSHOT_OMISSIONS
    ensures HasSentinel(MergedAll(warned, audit[..n + 1]))
  {
    AuditedFront(audit, n);
    PrefixAudited(audit, n);
    UnwarnedIsNew(warned, audit[..n], audit[n]);
    MergedPush(warned, audit, n);
    FullPutsSentinel(MergedAll(warned, audit[..n]), Report(audit[n].kind, audit[n].path, Fault(audit[n].errorCode)));
  }

  lemma MergedPush(omissions: seq<Omission>, audit: seq<Omission>, n: nat)
    requires n < |audit|
    ensures MergedAll(omissions, audit[..n + 1]) == MergedOne(MergedAll(omissions, audit[..n]), audit[n])
  {
    assert audit[..n + 1][..n] == audit[..n];
  }

  lemma AuditedFront(audit: seq<Omission>, n: nat)
    requires Audited(audit) && n <= |audit|
    ensures Audited(audit[..n])
  {
  }

  lemma {:induction false} FirstCrowded(warned: seq<Omission>, audit: seq<Omission>, n: nat) returns (k: nat)
    requires n <= |audit| && Crowded(warned, audit[..n])
    ensures k < n && !Crowded(warned, audit[..k]) && Hides(audit[k]) && !Holds(warned, audit[k])
    ensures |warned| + Unwarned(warned, audit[..k]) >= MAX_SNAPSHOT_OMISSIONS
  {
    var j :| 0 <= j < n && Hides(audit[..n][j]) && !Holds(warned, audit[..n][j])
      && |warned| + Unwarned(warned, audit[..n][..j]) >= MAX_SNAPSHOT_OMISSIONS;
    assert audit[..n][..j] == audit[..j];
    if Crowded(warned, audit[..j]) {
      k := FirstCrowded(warned, audit, j);
    } else {
      k := j;
    }
  }

  /** Main result on merging: a path is hidden by the merged ledger exactly when an unreadable
      directory was crowded out, and the sentinel hides everything, or the path lies under a
      directory that warnings or audit call unreadable and that the audit does not find gone. */
  lemma MergedHidesIff(warned: seq<Omission>, audit: seq<Omission>, path: string)
    requires |warned| <= MAX_SNAPSHOT_OMISSIONS && Codeless(warned) && Audited(audit)
    ensures Hidden(MergedAll(warned, audit), path) <==> Crowded(warned, audit) || MergeHides(warned, audit, path)
  {
    var merged := MergedAll(warned, audit);
    assert audit[..|audit|] == audit;
    if Crowded(warned, audit) {
      var n := FirstCrowded(warned, audit, |audit|);
      assert audit[n] in audit;
      CrowdedPutsSentinel(warned, audit, n);
      SentinelStays(warned, audit, n + 1, |audit|);
      var k :| 0 <= k < |merged| && IsSentinel(merged[k]);
      HiddenAt(merged, k, path);
    } else {
      MergingHolds(warned, audit, |audit|);
      if Hidden(merged, path) {
        var k :| 0 <= k < |merged| && HiddenBy(merged[k], path);
        MergingHidesOnly(warned, audit, merged, k);
      }
      if MergeHides(warned, audit, path) {
        var o := KeeperOf(warned, audit, path);
        var k := MergingHidesEach(warned, audit, merged, o);
        HiddenAt(merged, k, path);
      }
    }
  }

  lemma KeeperOf(warned: seq<Omission>, audit: seq<Omission>, path: string) returns (o: Omission)
    requires MergeHides(warned, audit, path)
    ensures KeepsHiding(warned, audit, o) && Under(o.path, path)
  {
    if k :| 0 <= k < |warned| && KeepsHiding(warned, audit, warned[k]) && Under(warned[k].path, path) {
      o := warned[k];
    } else {
      var k :| 0 <= k < |audit| && KeepsHiding(warned, audit, audit[k]) && Under(audit[k].path, path);
      o := audit[k];
    }
  }

  /** So the loop uncovers nothing exactly when each directory warned of still lies under one that
      keeps hiding. */
  lemma MergingHidesAllIff(warned: seq<Omission>, audit: seq<Omission>)
    requires |warned| <= MAX_SNAPSHOT_OMISSIONS && Codeless(warned) && Audited(audit)
    ensures HidesAll(warned, MergedAll(warned, audit)) <==>
      Crowded(warned, audit) || forall k | 0 <= k < |warned| && Hides(warned[k]) :: MergeHides(warned, audit, warned[k].path)
  {
    var merged := MergedAll(warned, audit);
    forall path ensures Hidden(merged, path) <==> Crowded(warned, audit) || MergeHides(warned, audit, path) {
      MergedHidesIff(warned, audit, path);
    }
    HidesAllIff(warned, merged);
  }

  /** What the audit hides, the merged ledger hides in every case. */
  lemma AuditStaysHidden(warned: seq<Omission>, audit: seq<Omission>)
    requires |warned| <= MAX_SNAPSHOT_OMISSIONS && Codeless(warned) && Audited(audit)
    ensures HidesAll(audit, MergedAll(warned, audit))
  {
    forall path | Hidden(audit, path) ensures Hidden(MergedAll(warned, audit), path) {
      var k :| 0 <= k < |audit| && HiddenBy(audit[k], path);
      assert forall j | 0 <= j < |audit| && SameKey(audit[j], audit[k]) :: j == k;
      assert KeepsHiding(warned, audit, audit[k]);
      MergedHidesIff(warned, audit, path);
    }
  }

  /** Some audit record finds no record of its entry and the ledger full. */
  predicate Overflows(omissions: seq<Omission>, audit: seq<Omission>) {
    && audit != []
    && var before := MergedAll(omissions, audit[..|audit| - 1]);
    || Overflows(omissions, audit[..|audit| - 1])
    || (IndexOfKey(before, audit[|audit| - 1]) == |before| && |before| >= MAX_SNAPSHOT_OMISSIONS)
  }

  /** Without overflow the merged ledger has a record of every entry that either ledger has. */
  lemma {:induction false} MergeLosesNothing(omissions: seq<Omission>, audit: seq<Omission>)
    requires !Overflows(omissions, audit)
    ensures forall o: Omission | Holds(omissions, o) || Holds(audit, o) :: Holds(MergedAll(omissions, audit), o)
  {
    if audit != [] {
      var n := |audit| - 1;
      var before, after := MergedAll(omissions, audit[..n]), MergedAll(omissions, audit);
      MergeLosesNothing(omissions, audit[..n]);
      MergedOneHolds(before, audit[n]);
      forall o: Omission | Holds(omissions, o) || Holds(audit, o) ensures Holds(after, o) {
        if Holds(audit, o) && !SameKey(audit[n], o) {
          var k :| 0 <= k < |audit| && SameKey(audit[k], o);
          assert SameKey(audit[..n][k], o);
        }
      }
    }
  }

  lemma MergedOneHolds(omissions: seq<Omission>, o: Omission)
    requires IndexOfKey(omissions, o) < |omissions| || |omissions| < MAX_SNAPSHOT_OMISSIONS
    ensures forall a: Omission | Holds(omissions, a) || SameKey(o, a) :: Holds(MergedOne(omissions, o), a)
  {
    var after := MergedOne(omissions, o);
    assert SameKey(after[IndexOfKey(omissions, o)], o);
    forall a: Omission | Holds(omissions, a) ensures Holds(after, a) {
      var k :| 0 <= k < |omissions| && SameKey(omissions[k], a);
      assert SameKey(after[k], a);
    }
  }

  /** The merging loop of `discoverFiles`. */
  method MergeAudit(omissions: seq<Omission>, omissionsTruncated: bool, audit: seq<Omission>, auditTruncated: bool)
      returns (merged: seq<Omission>, truncated: bool)
    requires |omissions| <= MAX_SNAPSHOT_OMISSIONS
    ensures merged == MergedAll(omissions, audit) && |merged| <= MAX_SNAPSHOT_OMISSIONS
    ensures truncated <==> omissionsTruncated || auditTruncated || Overflows(omissions, audit)
  {
    merged, truncated := omissions, omissionsTruncated;
    for i := 0 to |audit|
      invariant merged == MergedAll(omissions, audit[..i]) && |merged| <= MAX_SNAPSHOT_OMISSIONS
      invariant truncated <==> omissionsTruncated || Overflows(omissions, audit[..i])
    {
      var omission := audit[i];
      assert audit[..i + 1][..i] == audit[..i];
      var existingIndex := IndexOfKey(merged, omission);
      if existingIndex < |merged| {
        if omission.errorCode.Some? && merged[existingIndex].errorCode.None? {
          merged := merged[existingIndex := omission];
        }
        continue;
      }
      truncated := truncated || |merged| >= MAX_SNAPSHOT_OMISSIONS;
      merged := Recorded(merged, Report(omission.kind, omission.path, Fault(omission.errorCode)));
    }
    assert audit[..|audit|] == audit;
    truncated := truncated || auditTruncated;
  }
}
