/** The review delta of a Git checkpoint comparison (src/git-review-delta.ts). */
module GitReviewDelta {
  import opened Options
  import opened Sequences
  import Ordering
  import opened Lines
  import opened Patch
  import Utf8

  datatype Kind = File | Symlink | Other

  datatype TrackedChange = TrackedChange(
    path: string, status: Option<Status>,
    oldKind: Option<Kind>, oldMode: Option<int>, oldBytes: Option<seq<Utf8.Byte>>,
    newKind: Option<Kind>, newMode: Option<int>, newBytes: Option<seq<Utf8.Byte>>)

  datatype UntrackedState = UntrackedState(
    kind: Kind, mode: int, content: Option<seq<Utf8.Byte>>, target: Option<string>)

  datatype UntrackedChange = UntrackedChange(
    path: string, status: Option<Status>, old_: Option<UntrackedState>, new_: Option<UntrackedState>)

  datatype ReviewState = ReviewState(
    kind: Kind, tracking: Tracking, mode: string, bytes: Option<seq<Utf8.Byte>>, target: Option<string>)

  datatype ReviewEntry = ReviewEntry(path: string, status: Status, prior: Option<ReviewState>, next: Option<ReviewState>)

  datatype ReviewError =
    | InvalidLimit | InvalidMode | InvalidStatus | InvalidKind | MissingState
    | MissingPath | DuplicatePath | MissingContent | UndecodableTarget

  datatype Limits = Limits(maxFileBytes: int, maxSnapshotBytes: int, maxPatchBytes: int)

  datatype ReviewDelta = ReviewDelta(changes: seq<ChangedFile>, patch: PatchResult)

  /** What the source asks of the runtime: the table of binary signatures, `toString("utf8")`, and
      the decoder that fails on malformed bytes. */
  datatype Runtime = Runtime(
    magic: seq<Utf8.Byte> -> bool, decode: seq<Utf8.Byte> -> string, decodeFatal: seq<Utf8.Byte> -> Option<string>)

  const MAX_SAFE_INTEGER := 0x1F_FFFF_FFFF_FFFF

  predicate ValidLimits(limits: Limits) {
    && 0 <= limits.maxFileBytes <= MAX_SAFE_INTEGER && 0 <= limits.maxSnapshotBytes <= MAX_SAFE_INTEGER
    && 0 <= limits.maxPatchBytes <= MAX_SAFE_INTEGER
  }

  // ---------------------------------------------------------------- entries

  /** The entry has the halves its status calls for. */
  predicate Complete(e: ReviewEntry) {
    (e.status.Added? || e.prior.Some?) && (e.status.Deleted? || e.next.Some?)
  }

  function OctalDigit(n: nat): char
    requires n < 8
  {
    "01234567"[n]
  }

  /** `100` and three octal digits; no mode for an absent kind. */
  function Mode(kind: Option<Kind>, bits: Option<int>): Result<Option<string>, ReviewError> {
    if kind.None? then Ok(None)
    else if kind.value.Symlink? then Ok(Some("120000"))
    else if bits.None? || bits.value < 0 || bits.value > 0x1FF then Err(InvalidMode)
    else
      var b := bits.value;
      Ok(Some("100" + [OctalDigit(b / 64), OctalDigit(b / 8 % 8), OctalDigit(b % 8)]))
  }

  function TrackedEntry(c: TrackedChange): (r: Result<ReviewEntry, ReviewError>)
    ensures r.Ok? ==> r.value.path == c.path && Complete(r.value)
  {
    if c.status.None? then Err(InvalidStatus)
    else
      match (Mode(c.oldKind, c.oldMode), Mode(c.newKind, c.newMode))
      case (Err(e), _) => Err(e)
      case (_, Err(e)) => Err(e)
      case (Ok(oldMode), Ok(newMode)) =>
        if !c.status.value.Added? && (oldMode.None? || c.oldBytes.None?) then Err(MissingContent)
        else if !c.status.value.Deleted? && (newMode.None? || c.newBytes.None?) then Err(MissingContent)
        else
          Ok(ReviewEntry(
              c.path, c.status.value,
              if oldMode.Some? then Some(ReviewState(c.oldKind.value, Tracked, oldMode.value, c.oldBytes, None)) else None,
              if newMode.Some? then Some(ReviewState(c.newKind.value, Tracked, newMode.value, c.newBytes, None)) else None))
  }

  function UntrackedReviewState(s: Option<UntrackedState>): (r: Result<Option<ReviewState>, ReviewError>)
    ensures r.Ok? ==> (r.value.Some? <==> s.Some?)
  {
    if s.None? then Ok(None)
    else if s.value.kind.Other? then Err(InvalidKind)
    else if s.value.mode < 0 then Err(InvalidMode)
    else
      match Mode(Some(s.value.kind), Some(s.value.mode % 0x200))
      case Err(e) => Err(e)
      case Ok(None) => Err(MissingState)
      case Ok(Some(mode)) =>
        if s.value.kind.File? && s.value.content.None? then Err(MissingContent)
        else if s.value.kind.Symlink? && s.value.target.None? then Err(MissingContent)
        else Ok(Some(ReviewState(s.value.kind, Untracked, mode, s.value.content, s.value.target)))
  }

  function UntrackedEntry(c: UntrackedChange): (r: Result<ReviewEntry, ReviewError>)
    ensures r.Ok? ==> r.value.path == c.path && Complete(r.value)
  {
    if c.status.None? then Err(InvalidStatus)
    else
      match (UntrackedReviewState(c.old_), UntrackedReviewState(c.new_))
      case (Err(e), _) => Err(e)
      case (_, Err(e)) => Err(e)
      case (Ok(prior), Ok(next)) =>
        if (!c.status.value.Added? && prior.None?) || (!c.status.value.Deleted? && next.None?) then Err(MissingState)
        else Ok(ReviewEntry(c.path, c.status.value, prior, next))
  }

  // ---------------------------------------------------------------- merging by path

  /** Two entries that cannot stand for one path. */
  predicate Clash(a: ReviewEntry, b: ReviewEntry) {
    a.path == b.path && ((a.prior.Some? && b.prior.Some?) || (a.next.Some? && b.next.Some?))
  }

  predicate HasHalf(e: ReviewEntry) {
    e.prior.Some? || e.next.Some?
  }

  /** The entry that takes each half from whichever of the two has it. */
  function MergeEntries(a: ReviewEntry, b: ReviewEntry): ReviewEntry {
    var prior := if a.prior.Some? then a.prior else b.prior;
    var next := if a.next.Some? then a.next else b.next;
    ReviewEntry(a.path, HalvesStatus(prior, next), prior, next)
  }

  function HalvesStatus(prior: Option<ReviewState>, next: Option<ReviewState>): Status {
    if prior.Some? && next.Some? then Modified else if prior.Some? then Deleted else Added
  }

  /** e is the only entry of its path. */
  ghost predicate Lone(entries: seq<ReviewEntry>, e: ReviewEntry) {
    e in entries && forall d | d in entries && d.path == e.path :: d == e
  }

  /** m stands for every entry of its path among the entries: it holds each half some such entry
      holds, and no other; a lone entry stands for itself, and only then is its status kept. */
  ghost predicate StandsFor(m: ReviewEntry, entries: seq<ReviewEntry>) {
    && (forall e | e in entries && e.path == m.path && e.prior.Some? :: m.prior == e.prior)
    && (forall e | e in entries && e.path == m.path && e.next.Some? :: m.next == e.next)
    && (m.prior.Some? ==> exists e :: e in entries && e.path == m.path && e.prior == m.prior)
    && (m.next.Some? ==> exists e :: e in entries && e.path == m.path && e.next == m.next)
    && (forall e | Lone(entries, e) && e.path == m.path :: m == e)
    && (m.status == HalvesStatus(m.prior, m.next) || Lone(entries, m))
  }

  ghost predicate NoClash(entries: seq<ReviewEntry>) {
    forall i, j | 0 <= i < j < |entries| :: !Clash(entries[i], entries[j])
  }

  ghost predicate MergedInto(entries: seq<ReviewEntry>, byPath: map<string, ReviewEntry>) {
    && (forall e | e in entries :: e.path in byPath)
    && (forall p | p in byPath :: byPath[p].path == p && HasHalf(byPath[p]) && StandsFor(byPath[p], entries))
  }

  lemma StandsForNew(m: ReviewEntry, entries: seq<ReviewEntry>, e: ReviewEntry)
    requires StandsFor(m, entries) && e.path != m.path
    ensures StandsFor(m, entries + [e])
  {
  }

  lemma StandsForMerged(m: ReviewEntry, entries: seq<ReviewEntry>, e: ReviewEntry)
    requires StandsFor(m, entries) && e.path == m.path && !Clash(m, e) && HasHalf(m) && HasHalf(e)
    ensures StandsFor(MergeEntries(m, e), entries + [e])
  {
  }

  lemma StandsForItself(entries: seq<ReviewEntry>, e: ReviewEntry)
    requires forall d | d in entries :: d.path != e.path
    ensures StandsFor(e, entries + [e])
  {
  }

  /** The halves already taken are those of earlier entries: a clash with the merged entry is one
      with an earlier entry, and conversely. */
  lemma ClashesEarlier(m: ReviewEntry, entries: seq<ReviewEntry>, e: ReviewEntry)
    requires StandsFor(m, entries) && e.path == m.path
    ensures Clash(m, e) <==> exists d :: d in entries && Clash(d, e)
  {
  }

  method MergeByPath(entries: seq<ReviewEntry>) returns (r: Result<map<string, ReviewEntry>, ReviewError>)
    requires forall e | e in entries :: HasHalf(e)
    ensures r.Ok? ==> MergedInto(entries, r.value) && "" !in r.value
    ensures r.Ok? <==> (forall e | e in entries :: e.path != "") && NoClash(entries)
    ensures r.Err? ==> r.error in {MissingPath, DuplicatePath}
  {
    var byPath: map<string, ReviewEntry> := map[];
    for i := 0 to |entries|
      invariant MergedInto(entries[..i], byPath) && NoClash(entries[..i])
      invariant (forall e | e in entries[..i] :: e.path != "") && "" !in byPath
    {
      var entry := entries[i];
      var seen := entries[..i];
      assert entries[..i + 1] == seen + [entry];
      if entry.path == "" {
        return Err(MissingPath);
      }
      if entry.path !in byPath {
        PushNew(seen, byPath, entry);
        byPath := byPath[entry.path := entry];
        continue;
      }
      var prior := byPath[entry.path];
      ClashesEarlier(prior, seen, entry);
      if (prior.prior.Some? && entry.prior.Some?) || (prior.next.Some? && entry.next.Some?) {
        assert Clash(prior, entry);
        ClashFound(entries, i);
        return Err(DuplicatePath);
      }
      PushMerged(seen, byPath, entry);
      byPath := byPath[entry.path := MergeEntries(prior, entry)];
    }
    assert entries[..|entries|] == entries;
    r := Ok(byPath);
  }

  lemma ClashFound(entries: seq<ReviewEntry>, i: nat)
    requires i < |entries| && exists d :: d in entries[..i] && Clash(d, entries[i])
    ensures !NoClash(entries)
  {
    var d :| d in entries[..i] && Clash(d, entries[i]);
    var k :| 0 <= k < i && entries[..i][k] == d;
    assert Clash(entries[k], entries[i]);
  }

  lemma NoClashPush(seen: seq<ReviewEntry>, e: ReviewEntry)
    requires NoClash(seen) && forall d | d in seen :: !Clash(d, e)
    ensures NoClash(seen + [e])
  {
  }

  lemma PushAt(seen: seq<ReviewEntry>, byPath: map<string, ReviewEntry>, e: ReviewEntry, m: ReviewEntry)
    requires MergedInto(seen, byPath) && m.path == e.path && HasHalf(m) && StandsFor(m, seen + [e])
    ensures MergedInto(seen + [e], byPath[e.path := m])
  {
    var more := byPath[e.path := m];
    forall p | p in more ensures more[p].path == p && HasHalf(more[p]) && StandsFor(more[p], seen + [e]) {
      if p != e.path {
        assert StandsFor(byPath[p], seen);
        StandsForNew(byPath[p], seen, e);
      }
    }
  }

  lemma PushNew(seen: seq<ReviewEntry>, byPath: map<string, ReviewEntry>, e: ReviewEntry)
    requires MergedInto(seen, byPath) && NoClash(seen) && HasHalf(e) && e.path !in byPath
    ensures MergedInto(seen + [e], byPath[e.path := e]) && NoClash(seen + [e])
  {
    assert forall d | d in seen :: d.path in byPath;
    StandsForItself(seen, e);
    PushAt(seen, byPath, e, e);
    NoClashPush(seen, e);
  }

  lemma PushMerged(seen: seq<ReviewEntry>, byPath: map<string, ReviewEntry>, e: ReviewEntry)
    requires MergedInto(seen, byPath) && NoClash(seen) && HasHalf(e) && e.path in byPath
    requires !Clash(byPath[e.path], e)
    ensures MergedInto(seen + [e], byPath[e.path := MergeEntries(byPath[e.path], e)]) && NoClash(seen + [e])
  {
    var m := byPath[e.path];
    assert m.path == e.path && HasHalf(m) && StandsFor(m, seen);
    NoClashMerged(seen, m, e);
    StandsForMerged(m, seen, e);
    PushAt(seen, byPath, e, MergeEntries(m, e));
  }

  lemma NoClashMerged(seen: seq<ReviewEntry>, m: ReviewEntry, e: ReviewEntry)
    requires StandsFor(m, seen) && m.path == e.path && !Clash(m, e) && NoClash(seen)
    ensures NoClash(seen + [e])
  {
    ClashesEarlier(m, seen, e);
    NoClashPush(seen, e);
  }

  // ---------------------------------------------------------------- ordering

  /** The merged entries in strictly increasing path order. */
  ghost predicate SortedEntries(byPath: map<string, ReviewEntry>, changed: seq<ReviewEntry>) {
    && (forall m :: m in changed <==> m.path in byPath && byPath[m.path] == m)
    && forall i, j | 0 <= i < j < |changed| :: Ordering.Before(changed[i].path, changed[j].path)
  }

  function PathKey(): ReviewEntry -> seq<int> {
    (e: ReviewEntry) => Ordering.Units(e.path)
  }

  /** The values hold each entry outside the keys still to come, once. */
  ghost predicate Collected(byPath: map<string, ReviewEntry>, keys: set<string>, values: seq<ReviewEntry>) {
    && (forall m :: m in values <==> m.path in byPath && m.path !in keys && byPath[m.path] == m)
    && forall i, j | 0 <= i < j < |values| :: values[i].path != values[j].path
  }

  lemma CollectOne(byPath: map<string, ReviewEntry>, keys: set<string>, values: seq<ReviewEntry>, p: string)
    requires Collected(byPath, keys, values) && p in keys && p in byPath && byPath[p].path == p
    ensures Collected(byPath, keys - {p}, values + [byPath[p]])
  {
    var more := values + [byPath[p]];
    forall m ensures m in more <==> m.path in byPath && m.path !in keys - {p} && byPath[m.path] == m {
      assert m in more <==> m in values || m == byPath[p];
    }
    forall i, j | 0 <= i < j < |more| ensures more[i].path != more[j].path {
      assert more[i] in values;
    }
  }

  method ValuesOf(byPath: map<string, ReviewEntry>) returns (values: seq<ReviewEntry>)
    requires forall p | p in byPath :: byPath[p].path == p
    ensures Collected(byPath, {}, values)
  {
    values := [];
    var keys := byPath.Keys;
    while keys != {}
      invariant keys <= byPath.Keys && Collected(byPath, keys, values)
      decreases |keys|
    {
      var p :| p in keys;
      CollectOne(byPath, keys, values, p);
      keys := keys - {p};
      values := values + [byPath[p]];
    }
  }

  method SortEntries(byPath: map<string, ReviewEntry>) returns (changed: seq<ReviewEntry>)
    requires forall p | p in byPath :: byPath[p].path == p
    ensures SortedEntries(byPath, changed)
  {
    var values := ValuesOf(byPath);
    changed := Ordering.SortBy(values, PathKey());
    SortedEntriesOf(byPath, values);
  }

  lemma SortedEntriesOf(byPath: map<string, ReviewEntry>, values: seq<ReviewEntry>)
    requires Collected(byPath, {}, values)
    ensures SortedEntries(byPath, Ordering.SortBy(values, PathKey()))
  {
    SortedByPath(values);
    var changed := Ordering.SortBy(values, PathKey());
    forall m ensures m in changed <==> m.path in byPath && byPath[m.path] == m {
      assert m in changed <==> m in values;
    }
  }

  lemma SortedByPath(values: seq<ReviewEntry>)
    requires forall i, j | 0 <= i < j < |values| :: values[i].path != values[j].path
    ensures var changed := Ordering.SortBy(values, PathKey());
      forall i, j | 0 <= i < j < |changed| :: Ordering.Before(changed[i].path, changed[j].path)
  {
    var changed := Ordering.SortBy(values, PathKey());
    forall i, j | 0 <= i < j < |values| ensures PathKey()(values[i]) != PathKey()(values[j]) {
      if PathKey()(values[i]) == PathKey()(values[j]) {
        Ordering.UnitsInjective(values[i].path, values[j].path);
      }
    }
    Ordering.SortIncreasing(values, PathKey());
    forall i, j | 0 <= i < j < |changed| ensures Ordering.Before(changed[i].path, changed[j].path) {
      assert Ordering.LexLess(PathKey()(changed[i]), PathKey()(changed[j]));
    }
  }

  // ---------------------------------------------------------------- contents and the budget

  datatype Content = Content(text: Option<string>, reason: Option<string>)

  /** There is text to show for the state: a link's target, or the bytes it stands in for, decodes; a
      file's bytes are there. */
  predicate Readable(rt: Runtime, state: Option<ReviewState>) {
    state.Some? ==>
      if state.value.kind.Symlink? then
        state.value.target.Some? || (state.value.bytes.Some? && rt.decodeFatal(state.value.bytes.value).Some?)
      else state.value.bytes.Some?
  }

  function ReviewContent(rt: Runtime, state: Option<ReviewState>, maxFileBytes: int): (r: Result<Content, ReviewError>)
    ensures r.Ok? <==> Readable(rt, state)
    ensures r.Ok? ==> r.value.text.None? || r.value.reason.None?
    ensures r.Ok? && state.Some? ==> r.value.text.Some? || r.value.reason.Some?
    ensures r.Ok? && r.value.reason.Some? ==> r.value.reason.value != ""
  {
    match state
    case None => Ok(Content(None, None))
    case Some(s) =>
      if s.kind.Symlink? then
        var text := if s.target.Some? then s.target else if s.bytes.Some? then rt.decodeFatal(s.bytes.value) else None;
        if text.None? then Err(if s.target.None? && s.bytes.None? then MissingContent else UndecodableTarget)
        else if ByteLength(text.value) > maxFileBytes then Ok(Content(None, Some("oversized")))
        else Ok(Content(text, None))
      else if s.bytes.None? then Err(MissingContent)
      else if Utf8.LooksBinary(rt.magic, s.bytes.value, |s.bytes.value| > Utf8.SAMPLE_BYTES) then
        Ok(Content(None, Some("binary")))
      else if |s.bytes.value| > maxFileBytes then Ok(Content(None, Some("oversized")))
      else Ok(Content(Some(rt.decode(s.bytes.value)), None))
  }

  function TextBytes(o: Option<string>): nat {
    if o.Some? then ByteLength(o.value) else 0
  }

  function RetainedBy(c: ChangedFile): nat {
    TextBytes(c.oldContent) + TextBytes(c.newContent)
  }

  /** The bytes of all contents kept for display. */
  function Retained(changes: seq<ChangedFile>): nat {
    if changes == [] then 0 else Retained(changes[..|changes| - 1]) + RetainedBy(changes[|changes| - 1])
  }

  function ChangeOf(entry: ReviewEntry, old_: Content, next: Content, reason: Option<string>): ChangedFile {
    ChangedFile(
      entry.path, entry.status,
      old_.reason == Some("binary") || next.reason == Some("binary"),
      old_.reason == Some("oversized") || next.reason == Some("oversized"),
      if entry.prior.Some? then Some(entry.prior.value.mode) else None,
      if entry.next.Some? then Some(entry.next.value.mode) else None,
      if entry.prior.Some? then Some(entry.prior.value.tracking) else None,
      if entry.next.Some? then Some(entry.next.value.tracking) else None,
      None, reason,
      if reason.Some? then None else old_.text,
      if reason.Some? then None else next.text)
  }

  /** The change shows both sides of the entry when neither has a reason to be omitted and both fit
      into what the budget has left, and no side otherwise. */
  ghost predicate Shows(rt: Runtime, limits: Limits, entry: ReviewEntry, left: int, c: ChangedFile) {
    var old_ := ReviewContent(rt, entry.prior, limits.maxFileBytes);
    var next := ReviewContent(rt, entry.next, limits.maxFileBytes);
    && old_.Ok? && next.Ok? && c == ChangeOf(entry, old_.value, next.value, c.diffOmittedReason)
    && (c.diffOmittedReason.None? <==>
          && old_.value.reason.None? && next.value.reason.None?
          && TextBytes(old_.value.text) + TextBytes(next.value.text) <= left)
    && (c.diffOmittedReason == Some("snapshot_limit") <==>
          && old_.value.reason.None? && next.value.reason.None?
          && TextBytes(old_.value.text) + TextBytes(next.value.text) > left)
    && (old_.value.reason.Some? ==> c.diffOmittedReason == old_.value.reason)
    && (old_.value.reason.None? && next.value.reason.Some? ==> c.diffOmittedReason == next.value.reason)
  }

  ghost function ShowsAfter(rt: Runtime, limits: Limits): (ReviewEntry, seq<ChangedFile>, ChangedFile) -> bool {
    (entry: ReviewEntry, earlier: seq<ChangedFile>, c: ChangedFile) =>
      Shows(rt, limits, entry, limits.maxSnapshotBytes - Retained(earlier), c)
  }

  ghost predicate Budgeted(rt: Runtime, limits: Limits, changed: seq<ReviewEntry>, changes: seq<ChangedFile>) {
    PairwiseAfter(ShowsAfter(rt, limits), changed, changes)
  }

  lemma PushRetained(changes: seq<ChangedFile>, c: ChangedFile)
    ensures Retained(changes + [c]) == Retained(changes) + RetainedBy(c)
  {
    assert (changes + [c])[..|changes|] == changes;
  }

  predicate BothReadable(rt: Runtime, e: ReviewEntry) {
    Readable(rt, e.prior) && Readable(rt, e.next)
  }

  ghost predicate AllReadable(rt: Runtime, entries: seq<ReviewEntry>) {
    forall e | e in entries :: BothReadable(rt, e)
  }

  /** One change and the bytes it keeps. */
  method ShowChange(rt: Runtime, limits: Limits, entry: ReviewEntry, retained: nat)
      returns (r: Result<ChangedFile, ReviewError>, after: nat)
    requires retained <= limits.maxSnapshotBytes
    ensures r.Ok? ==> Shows(rt, limits, entry, limits.maxSnapshotBytes - retained, r.value)
    ensures r.Ok? ==> retained + RetainedBy(r.value) == after <= limits.maxSnapshotBytes
    ensures r.Ok? <==> BothReadable(rt, entry)
  {
    after := retained;
    var old_ := ReviewContent(rt, entry.prior, limits.maxFileBytes);
    if old_.Err? {
      return Err(old_.error), after;
    }
    var next := ReviewContent(rt, entry.next, limits.maxFileBytes);
    if next.Err? {
      return Err(next.error), after;
    }
    var reason := if old_.value.reason.Some? then old_.value.reason else next.value.reason;
    var required := TextBytes(old_.value.text) + TextBytes(next.value.text);
    if reason.None? && required > limits.maxSnapshotBytes - retained {
      reason := Some("snapshot_limit");
    }
    if reason.None? {
      after := retained + required;
    }
    r := Ok(ChangeOf(entry, old_.value, next.value, reason));
  }

  /** The first n entries are shown, within the budget. */
  ghost predicate Shown(rt: Runtime, limits: Limits, changed: seq<ReviewEntry>, changes: seq<ChangedFile>, retained: int) {
    && Budgeted(rt, limits, changed, changes) && retained == Retained(changes) <= limits.maxSnapshotBytes
  }

  lemma ShowOne(rt: Runtime, limits: Limits, changed: seq<ReviewEntry>, changes: seq<ChangedFile>, retained: int,
                c: ChangedFile, after: int)
    requires Shown(rt, limits, changed, changes, retained) && |changes| < |changed|
    requires Shows(rt, limits, changed[|changes|], limits.maxSnapshotBytes - retained, c)
    requires retained + RetainedBy(c) == after <= limits.maxSnapshotBytes
    ensures Shown(rt, limits, changed, changes + [c], after)
  {
    ShowsNow(rt, limits, changed[|changes|], changes, c);
    PushPairAfter(ShowsAfter(rt, limits), changed, changes, c);
    PushRetained(changes, c);
  }

  lemma ShowsNow(rt: Runtime, limits: Limits, entry: ReviewEntry, earlier: seq<ChangedFile>, c: ChangedFile)
    ensures ShowsAfter(rt, limits)(entry, earlier, c) == Shows(rt, limits, entry, limits.maxSnapshotBytes - Retained(earlier), c)
  {
  }

  method ShowChanges(rt: Runtime, limits: Limits, changed: seq<ReviewEntry>)
      returns (r: Result<seq<ChangedFile>, ReviewError>)
    requires ValidLimits(limits)
    ensures r.Ok? <==> AllReadable(rt, changed)
    ensures r.Ok? ==> |r.value| == |changed| && Budgeted(rt, limits, changed, r.value)
    ensures r.Ok? ==> Retained(r.value) <= limits.maxSnapshotBytes
  {
    var retained := 0;
    var changes: seq<ChangedFile> := [];
    for i := 0 to |changed|
      invariant |changes| == i && Shown(rt, limits, changed, changes, retained)
      invariant forall k | 0 <= k < i :: BothReadable(rt, changed[k])
    {
      var change, after := ShowChange(rt, limits, changed[i], retained);
      if change.Err? {
        return Err(change.error);
      }
      ShowOne(rt, limits, changed, changes, retained, change.value, after);
      changes := changes + [change.value];
      retained := after;
    }
    r := Ok(changes);
  }

  // ---------------------------------------------------------------- the whole delta

  function TrackedEntries(s: seq<TrackedChange>): (r: Result<seq<ReviewEntry>, ReviewError>)
    ensures r.Ok? ==> |r.value| == |s| && forall k | 0 <= k < |s| :: TrackedEntry(s[k]) == Ok(r.value[k])
  {
    if s == [] then Ok([])
    else
      match (TrackedEntry(s[0]), TrackedEntries(s[1..]))
      case (Err(e), _) => Err(e)
      case (_, Err(e)) => Err(e)
      case (Ok(first), Ok(rest)) => Ok([first] + rest)
  }

  function UntrackedEntries(s: seq<UntrackedChange>): (r: Result<seq<ReviewEntry>, ReviewError>)
    ensures r.Ok? ==> |r.value| == |s| && forall k | 0 <= k < |s| :: UntrackedEntry(s[k]) == Ok(r.value[k])
  {
    if s == [] then Ok([])
    else
      match (UntrackedEntry(s[0]), UntrackedEntries(s[1..]))
      case (Err(e), _) => Err(e)
      case (_, Err(e)) => Err(e)
      case (Ok(first), Ok(rest)) => Ok([first] + rest)
  }

  /** Entries of a comparison report, tracked ones first. */
  function Entries(tracked: seq<TrackedChange>, untracked: seq<UntrackedChange>): (r: Result<seq<ReviewEntry>, ReviewError>)
    ensures r.Ok? ==> forall e | e in r.value :: HasHalf(e) && Complete(e)
  {
    match (TrackedEntries(tracked), UntrackedEntries(untracked))
    case (Err(e), _) => Err(e)
    case (_, Err(e)) => Err(e)
    case (Ok(a), Ok(b)) => Ok(a + b)
  }

  ghost predicate HasPath(entries: seq<ReviewEntry>, path: string) {
    exists e :: e in entries && e.path == path
  }

  /** Every entry's path is listed once, in order, with its halves merged, and nothing else is. */
  ghost predicate Lists(entries: seq<ReviewEntry>, changed: seq<ReviewEntry>, changes: seq<ChangedFile>) {
    && IncreasingPaths(changes) && |changes| == |changed|
    && (forall k | 0 <= k < |changes| :: changes[k].path == changed[k].path && StandsFor(changed[k], entries))
    && (forall m | m in changed :: HasPath(entries, m.path))
    && forall e | e in entries :: HasPath(changed, e.path)
  }

  ghost predicate SamePaths(changed: seq<ReviewEntry>, changes: seq<ChangedFile>) {
    |changes| == |changed| && forall k | 0 <= k < |changes| :: changes[k].path == changed[k].path
  }

  lemma BudgetedPaths(rt: Runtime, limits: Limits, changed: seq<ReviewEntry>, changes: seq<ChangedFile>)
    requires Budgeted(rt, limits, changed, changes) && |changes| == |changed|
    ensures SamePaths(changed, changes)
  {
    forall k | 0 <= k < |changes| ensures changes[k].path == changed[k].path {
      ShownKeepsPath(rt, limits, changed[k], changes[..k], changes[k]);
    }
  }

  lemma ShownKeepsPath(rt: Runtime, limits: Limits, entry: ReviewEntry, earlier: seq<ChangedFile>, change: ChangedFile)
    requires ShowsAfter(rt, limits)(entry, earlier, change)
    ensures change.path == entry.path
  {
    assert Shows(rt, limits, entry, limits.maxSnapshotBytes - Retained(earlier), change);
  }

  lemma ChangesList(entries: seq<ReviewEntry>, byPath: map<string, ReviewEntry>,
                    changed: seq<ReviewEntry>, changes: seq<ChangedFile>)
    requires MergedInto(entries, byPath) && SortedEntries(byPath, changed) && SamePaths(changed, changes)
    ensures Lists(entries, changed, changes)
  {
    forall k | 0 <= k < |changes| ensures changes[k].path == changed[k].path && StandsFor(changed[k], entries) {
      assert changed[k] in changed;
    }
    forall m | m in changed ensures HasPath(entries, m.path) {
      assert HasHalf(byPath[m.path]) && StandsFor(m, entries);
    }
    forall e | e in entries ensures HasPath(changed, e.path) {
      assert byPath[e.path] in changed;
    }
  }

  lemma MergedIsComplete(m: ReviewEntry, entries: seq<ReviewEntry>)
    requires StandsFor(m, entries) && HasHalf(m) && forall e | e in entries :: Complete(e)
    ensures Complete(m)
  {
  }

  lemma OmittedOnlyWithReason(rt: Runtime, limits: Limits, entry: ReviewEntry, left: int, c: ChangedFile)
    requires Shows(rt, limits, entry, left, c) && Complete(entry)
    ensures DiffOmitted(c) <==> c.diffOmittedReason.Some?
  {
  }

  /** A diff is left out exactly for the reasons recorded: no content is merely unavailable. */
  ghost predicate OmittedByReason(changes: seq<ChangedFile>) {
    forall c | c in changes :: DiffOmitted(c) <==> c.diffOmittedReason.Some?
  }

  ghost predicate AllComplete(changed: seq<ReviewEntry>) {
    forall k | 0 <= k < |changed| :: Complete(changed[k])
  }

  lemma SortedAreComplete(entries: seq<ReviewEntry>, byPath: map<string, ReviewEntry>, changed: seq<ReviewEntry>)
    requires MergedInto(entries, byPath) && SortedEntries(byPath, changed) && forall e | e in entries :: Complete(e)
    ensures AllComplete(changed)
  {
    forall k | 0 <= k < |changed| ensures Complete(changed[k]) {
      assert changed[k] in changed;
      MergedIsComplete(changed[k], entries);
    }
  }

  lemma ShownAt(rt: Runtime, limits: Limits, changed: seq<ReviewEntry>, changes: seq<ChangedFile>, k: nat)
    requires Budgeted(rt, limits, changed, changes) && k < |changes|
    ensures Shows(rt, limits, changed[k], limits.maxSnapshotBytes - Retained(changes[..k]), changes[k])
  {
    assert ShowsAfter(rt, limits)(changed[k], changes[..k], changes[k]);
  }

  lemma ChangesOmittedByReason(rt: Runtime, limits: Limits, changed: seq<ReviewEntry>, changes: seq<ChangedFile>)
    requires Budgeted(rt, limits, changed, changes) && AllComplete(changed)
    ensures OmittedByReason(changes)
  {
    forall c | c in changes ensures DiffOmitted(c) <==> c.diffOmittedReason.Some? {
      var k :| 0 <= k < |changes| && changes[k] == c;
      ShownAt(rt, limits, changed, changes, k);
      OmittedOnlyWithReason(rt, limits, changed[k], limits.maxSnapshotBytes - Retained(changes[..k]), c);
    }
  }

  /** The merged entries hold the halves of the entries: either all can be read or neither all can. */
  lemma ReadableWhenMerged(rt: Runtime, entries: seq<ReviewEntry>, byPath: map<string, ReviewEntry>, changed: seq<ReviewEntry>)
    requires MergedInto(entries, byPath) && SortedEntries(byPath, changed)
    ensures AllReadable(rt, changed) <==> AllReadable(rt, entries)
  {
    forall m | m in changed && AllReadable(rt, entries) ensures BothReadable(rt, m) {
      assert StandsFor(m, entries);
    }
    forall e | e in entries && AllReadable(rt, changed) ensures BothReadable(rt, e) {
      var m := byPath[e.path];
      assert m in changed && StandsFor(m, entries);
    }
  }

  /** When a delta can be built: the limits and the report are well formed, every path is present, no
      two entries share a half of a path, and every half can be read. */
  ghost predicate Buildable(rt: Runtime, tracked: seq<TrackedChange>, untracked: seq<UntrackedChange>, limits: Limits) {
    && ValidLimits(limits) && Entries(tracked, untracked).Ok?
    && var entries := Entries(tracked, untracked).value;
    (forall e | e in entries :: e.path != "") && NoClash(entries) && AllReadable(rt, entries)
  }

  /** `buildGitReviewDelta`. */
  method BuildGitReviewDelta(rt: Runtime, tracked: seq<TrackedChange>, untracked: seq<UntrackedChange>, limits: Limits)
      returns (r: Result<ReviewDelta, ReviewError>, ghost changed: seq<ReviewEntry>, ghost sections: seq<string>)
    ensures r.Ok? <==> Buildable(rt, tracked, untracked, limits)
    ensures r.Ok? ==> Lists(Entries(tracked, untracked).value, changed, r.value.changes)
    ensures r.Ok? ==> Budgeted(rt, limits, changed, r.value.changes)
    ensures r.Ok? ==> Retained(r.value.changes) <= limits.maxSnapshotBytes
    ensures r.Ok? ==> OmittedByReason(r.value.changes)
    ensures r.Ok? ==> IsPatch(r.value.changes, sections, r.value.patch, limits.maxPatchBytes)
    ensures ValidLimits(limits) && Entries(tracked, untracked).Ok? && !NoClash(Entries(tracked, untracked).value)
      ==> r.Err? && r.error in {MissingPath, DuplicatePath}
  {
    changed, sections := [], [];
    if !ValidLimits(limits) {
      r := Err(InvalidLimit);
      return;
    }
    var entries := Entries(tracked, untracked);
    if entries.Err? {
      r := Err(entries.error);
      return;
    }
    var byPath := MergeByPath(entries.value);
    if byPath.Err? {
      r := Err(byPath.error);
      return;
    }
    var sorted := SortEntries(byPath.value);
    changed := sorted;
    ReadableWhenMerged(rt, entries.value, byPath.value, sorted);
    var changes := ShowChanges(rt, limits, sorted);
    if changes.Err? {
      r := Err(changes.error);
      return;
    }
    BudgetedPaths(rt, limits, sorted, changes.value);
    SortedAreComplete(entries.value, byPath.value, sorted);
    ChangesOmittedByReason(rt, limits, sorted, changes.value);
    ChangesList(entries.value, byPath.value, sorted, changes.value);
    var patch;
    patch, sections := BuildUnifiedPatch(changes.value, limits.maxPatchBytes);
    r := Ok(ReviewDelta(changes.value, patch));
  }
}
