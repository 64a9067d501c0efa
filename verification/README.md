# Verified model of the review gate's algorithms

A Dafny model of the algorithmic and state-machine parts of the extension: its
unified diff engine, the deferred tool manager, workspace capture, the JSONL
decoder, canonical JSON, configuration recovery, the shell token scanner,
durable delivery, reasoning arguments and the Git review delta. Code that loops
over mutable data is modelled by methods and classes proved against
specification functions; the promises made in the source's comments and
documentation are lemmas about those functions, stated for all inputs, all runs
or all reachable states.

`dafny verify dfyconfig.toml` checks everything.

## What is modelled

| files | part of the system |
|---|---|
| `Diff`, `Hunks`, `HunkText` | the line diff: longest-common-subsequence table and linear fallback, hunk building, range headers, and a reader that applies the printed hunks |
| `Lines`, `Patch`, `PatchReader` | text as lines, the byte-capped patch, and a reader that recovers from a section's lines what they say of a file |
| `GitReviewDelta`, `ReviewReports` | the review delta of a Git checkpoint comparison, and what it shows of each report |
| `ToolAuthority`, `ToolInvariants`, `ToolRuns`, `ToolWrites`, `ToolSearch`, `DeferredToolManager` | the deferred tool manager against a host that changes between steps: that its writes are safe, exactly what they hold, and what a search finds |
| `Utf8`, `Utf8Encoding`, `FileInspection` | the cut-sample rule for text and binary files, the encoding that validity and byte lengths mean, and the streaming classifier |
| `Snapshots`, `SnapshotRecords`, `Omissions`, `Discovery`, `DiscoveryTree`, `SnapshotComparison` | capture with reuse of a prior snapshot, what it records of each path, the bounded omission ledger, git's warnings and the directory audit behind them, comparison of captures |
| `ShellTokens`, `ShellWords`, `ShellPaths`, `ShellEffects` | the literal shell scanner, what it makes of commands written from words and operators, the paths extracted from the tokens, and what each command of a script does |
| `Utf16`, `Utf8Prefix`, `Accumulator`, `Jsonl`, `JsonlRecords` | JavaScript strings, byte-bounded prefixes, the text accumulator, the JSONL decoder and the records of a producer |
| `CanonicalJson`, `JsonReader` | the canonical printer, and a reader of JSON texts |
| `ConfigRecovery` | startup repair of a configuration document |
| `DurableDelivery`, `DeliveryRuns` | the delivery protocol with saves, crashes and restores, and what a delivery comes to |
| `ReasoningArgs` | reading, removing and writing reasoning settings in argument lists |
| `Options`, `Sequences`, `Ordering`, `Decimal` | shared vocabulary |

## Conventions

- Text that is always well formed (file contents for display, paths, tool
  names) is a Dafny `string` of Unicode scalar values. JavaScript strings that
  may hold lone surrogates (canonical JSON, JSONL) are sequences of UTF-16 code
  units. The code-unit order of the source's comparisons is `Ordering.Before`.
- Finite JSON numbers are known by their shortest decimal text; `undefined` and
  non-finite numbers print as `null` and are identified with it.
- The file system, the host, clocks, hashing and the configuration validator
  are parameters: what a read shows, what the host's registry and policy
  answer, what the validator accepts.
- `World` in `Snapshots` is the trust assumption of the capture comments: equal
  location and stat identity mean equal bytes. `Honest` says that reads show
  the world.
- `Discovery.Proper` says what directories are: names are neither empty, `.`
  nor hold a slash, and no two entries of a directory share one.
- `SnapshotComparison.NoCollision` says that no two contents of the world share a
  hash; only `SnapshotComparison.EditedIff` assumes it.
- `ConfigRecovery.Judge` stands for a validator that judges a document part by
  part: a setting by its path, an array entry by itself, the two delay bounds as
  a pair. The laws about it are premises of nothing else: everything else that
  is said of recovery holds for any validator.
- Readers of printed forms (`HunkText.ApplyPatch`, `PatchReader.ReadSection`,
  `JsonReader.ReadValue`, `Utf8Encoding.Decode`) and writers of forms that are
  read (`ShellWords.WriteCommand`, `ReasoningArgs.WriteAll`,
  `JsonlRecords.WriteAll`) are defined on their own, without the printer or
  parser they are compared with.
- A constructor's `requires` on its byte limit is the range the source throws
  outside of.

## Where the code does not do what one might expect

- An unreadable tool registry does not suppress the write: the empty array is
  written (`ToolRuns.ApplyWritesSafe`).
- A truncated patch lists omissions only up to the change at which it stopped:
  it lists all of them exactly when the sections before each omitted change fit
  (`Patch.OmittedListsAllIff`; `Patch.LaterOmissionsAreNotListed` is an input
  at which one is missing).
- Merging the directory audit into Git's warnings can uncover a directory:
  when the audit finds gone what Git could not open, its record replaces the
  hiding one. `Omissions.MergedHidesIff` says which paths the merged ledger
  hides: those under a directory that warnings or audit call unreadable and
  that the audit does not find gone, and all of them when an unreadable
  directory found the ledger full. `Omissions.MergingHidesAllIff` and
  `SnapshotComparison.DeletedIff` draw the consequences;
  `SnapshotComparison.AuditCanUncover` is an input at which a child of an
  unreadable directory is reported deleted.
- A warning about a directory around the capture root is dropped with the
  unrelated ones when it is re-based (`Discovery.RebasedIsExact`).
- A capture that reuses a verified record does not notice that reading the file
  would fail: it is the capture in which that read succeeds
  (`Snapshots.ReuseWalkIsFresh`).
- The accumulator's value can skip text (`Accumulator.AccumulatorCanSkip`). It
  is a prefix of what was received exactly when no chunk adds something after
  an earlier one was not taken whole (`Accumulator.PrefixUnlessSkips`), and
  everything received exactly when it does not report truncation
  (`Accumulator.AccumulatedWithin`).
- A chunk boundary inside a surrogate pair makes the decoder count a pair as
  six bytes (`Jsonl.SplitPairOvercounts`). That changes records or the oversized
  count exactly when it takes a record that fits over the limit
  (`Jsonl.ChunkingIsIrrelevantIff`). The callers in the repository feed the
  decoder from `setEncoding("utf8")` (`src/adapters/process.ts:481`) or from a
  streaming decoder (`src/execution/evidence/artifacts.ts:226`), which split no
  pair.
- For Codex, taking a setting out can make a kept `-c` adopt a later argument
  (`ReasoningArgs.RemovalCanJoinUp`); `ReasoningArgs.LeftoverIsFreeIff` says
  exactly when, and `ReasoningArgs.ReplacedSettingReadsBack` what it costs.
- `looksBinary` also flags a genuine U+FFFD (`Utf8.CutSampleVerdict` and
  `Utf8.CompleteBufferVerdict` say exactly when;
  `Utf8.GenuineReplacementIsFlagged` is an input).
- The branch of `recoverToolProtection` for a fault that is not attributable to
  the block is dead: without the block the document always validates
  (`ConfigRecovery.RecoverToolProtection`).

## Model

| member | source | states |
|---|---|---|
| Diff.LcsIsUpperBound | src/diff.ts:140-147 | no common subsequence of two suffixes is longer than the table recurrence's value |
| Diff.KeptIsCommon | src/diff.ts:149-176 | what any edit script keeps is a common subsequence of the files it spells, and its length is that of both files less what it keeps |
| Diff.LongestKeepsIsShortest | src/diff.ts:133-176 | a script keeping as many lines as the table promises is minimal among all scripts between the same files |
| Diff.FillOne | src/diff.ts:140-147 | filling one cell of the flat table keeps every cell filled before |
| Diff.FillTable | src/diff.ts:138-147 | the in-place table loops leave every cell at the value of the recurrence, without overflow of its 32-bit cells |
| Diff.WalkTable | src/diff.ts:149-176 | the backtracking loops give a script that spells both files with exact line numbers and keeps the maximal number of lines |
| Diff.DiffLinesByPrefixSuffix | src/diff.ts:178-211 | the linear fallback spells both files and keeps exactly the longest common prefix and the longest remaining common suffix |
| Diff.DiffLines | src/diff.ts:133-176 | both branches spell old and new with exact 1-based line numbers; below the cell limit the script is optimal |
| Hunks.HunkingIsUnique | src/diff.ts:83-131 | the maximal runs of operations within three lines of a change are unique, so hunk merging has one right answer |
| Hunks.HunkEdges | src/diff.ts:83-131 | outside hunks all lines are unchanged, each hunk has at most three context lines per side, and hunks never touch |
| Hunks.NextHunk | src/diff.ts:92-128 | one turn of the hunk loop, with its trailing context cut back, covers exactly the operations near its changes |
| Hunks.FindHunks | src/diff.ts:83-131 | the hunk loop finds exactly the maximal runs near changes |
| HunkText.ParseOwnHeader | src/diff.ts:213-240 | a printed range header is read back to its starts and counts |
| HunkText.HeaderOpens | src/diff.ts:213-240 | a reader of the old file, given a hunk's header, copies exactly up to the hunk |
| HunkText.BodyReads | src/diff.ts:213-222 | a hunk's body lines take the reader through exactly its operations |
| HunkText.ZeroCountMeansEmptyFile | src/diff.ts:235-240 | a zero-count range occurs only when that whole file is empty, so 0,0 is right |
| HunkText.PatchApplies | src/diff.ts:83-131 | applying the printed hunks to the old file gives exactly the new file |
| HunkText.NoHunksForEqualFiles | src/diff.ts:83-131 | equal files give no hunk, in either branch |
| HunkText.BuildHunks | src/diff.ts:83-131 | the printed lines apply to old giving new, come from a script with exact numbers, minimal below the cell limit |
| Lines.SplitOfJoin | src/diff.ts:224-233 | joined lines split back to themselves |
| Lines.LinesReadBack | src/diff.ts:69-78 | lines joined with a final empty one are what splitting the text gives |
| Lines.LinesReadBackAfter | src/diff.ts:69-78 | the same behind any text that ends before them |
| Lines.SplitLinesKeepsText | src/diff.ts:224-233 | splitting a text forgets only whether its last line was ended |
| Patch.BuildFileDiff | src/diff.ts:59-79 | a file's section is its header and the hunks of a script between its two contents; behind the header its lines turn the old content of a modified or deleted file, or nothing for an added one, into the new content, or nothing |
| Patch.SectionReadsBack | src/diff.ts:59-79 | a section's text splits into the lines of its header followed by lines that turn the change's own old content into its own new content (nothing on the side that an added or deleted file lacks), whatever names and modes hold |
| Patch.BodyIsOneLine | src/diff.ts:213-222 | hunk lines hold no newline and apply |
| Patch.BuildUnifiedPatch | src/diff.ts:9-41 | the patch is the sections of a prefix of the changes and, if truncated, a prefix of the marker; it never exceeds the byte cap, stops only at a section that does not fit, and lists the omissions met; every section of a shown change turns its old content into its new content |
| Patch.OmittedListsAllIff | src/diff.ts:16-34 | a patch lists every omission exactly when, for each omitted change but the first, the sections of the changes before it fit within the cap together |
| Patch.LaterOmissionsAreNotListed | src/diff.ts:16-34 | with no bytes allowed, only the first of two omitted changes is listed |
| PatchReader.SectionDescribes | src/diff.ts:16-79 | the lines of any section read back as what the change holds: old and new name (none for `/dev/null`), modes, tracking and rename, and a body that turns its old content into its new one; or the path and reason of an omission |
| PatchReader.OmissionsAreThose | src/diff.ts:14-24 | the omissions are exactly the changes with a reason or without a content their status needs, each with its path and reason |
| GitReviewDelta.MergeByPath | src/git-review-delta.ts:34-53 | merging succeeds exactly when every path is present and no two entries of a path share a half; each path then stands for all its entries |
| GitReviewDelta.StandsForMerged | src/git-review-delta.ts:47-52 | merging two halves holds each half once and recomputes the status |
| GitReviewDelta.ClashesEarlier | src/git-review-delta.ts:42-46 | an entry clashes with the merged entry exactly when it clashes with an earlier entry |
| GitReviewDelta.SortEntries | src/git-review-delta.ts:54 | the merged entries, each once, in strictly increasing code-unit order |
| GitReviewDelta.ShowChange | src/git-review-delta.ts:57-80 | a change shows both sides exactly when neither has its own reason and both fit the rest of the budget; what it keeps is accounted |
| GitReviewDelta.ShowChanges | src/git-review-delta.ts:56-81 | retained contents sum to at most maxSnapshotBytes |
| GitReviewDelta.ChangesList | src/git-review-delta.ts:34-81 | every changed path is listed once, in order, with its halves merged, and nothing else |
| GitReviewDelta.OmittedOnlyWithReason | src/git-review-delta.ts:60-79 | a change's diff is left out exactly when a reason was recorded; content is never merely unavailable |
| GitReviewDelta.ReadableWhenMerged | src/git-review-delta.ts:34-60 | merging by path loses and invents no half: the merged entries can be shown exactly when all entries can |
| GitReviewDelta.BuildGitReviewDelta | src/git-review-delta.ts:27-83 | a delta is built exactly when limits and report are well formed, every path is present, no two entries share a half and every half can be read; it lists the merged paths in order, retained bytes and patch within their limits |
| ReviewReports.TrackedHalves | src/git-review-delta.ts:109-127 | a report of a tracked path is taken exactly when its status is known, its modes fit and each half its status calls for has its bytes; old and new halves are then those of the report |
| ReviewReports.UntrackedHalves | src/git-review-delta.ts:129-154 | the same for an untracked path, of whose mode only the permission bits count |
| ReviewReports.ModeSays | src/git-review-delta.ts:100-107 | a mode reads back in octal as the permission bits, a link's as its own, and is refused exactly when a file's bits do not fit |
| ReviewReports.EntriesTaken | src/git-review-delta.ts:35 | a report is taken exactly when each of its changes is |
| ReviewReports.ReportsAreShown | src/git-review-delta.ts:27-83 | in a delta that was built, every report has a change of its path with its old bytes or link target as old content and its new ones as new content, unless a reason forbids, with its modes and tracking; and nothing else if no other report shares the path |
| ReviewReports.MergedStatusFits | src/git-review-delta.ts:47-52 | the status of a change that several reports share is added, deleted or modified as the sides it shows |
| ToolInvariants.ReconcileTracked | src/deferred-tools.ts:1429-1463 | reconciling against any registry, mode and policy keeps every desired name outside the base a loader selection |
| ToolInvariants.ReconcileDistinct | src/deferred-tools.ts:1429-1463 | the rebuilt lists hold no duplicate |
| ToolInvariants.ReconcileIdempotent | src/deferred-tools.ts:1395-1480 | a second reconciliation against the same host changes nothing |
| ToolInvariants.ReconcileCore | src/deferred-tools.ts:1395-1480 | the catalog stays the authority met with the registry, and a frozen worker's authority never changes |
| ToolInvariants.PrunedInv | src/deferred-tools.ts:937-947 | dropping declined selections keeps the invariant |
| ToolInvariants.ToggledInv | src/deferred-tools.ts:862-888 | switching deferred tools keeps the invariant |
| ToolInvariants.AskedInv | src/deferred-tools.ts:1519-1689 | recording the requests of a search keeps the invariant |
| ToolInvariants.StartInv | src/deferred-tools.ts:736-785 | every way a session starts establishes the invariant |
| ToolRuns.ApplyWritesSafe | src/deferred-tools.ts:917-994 | each write holds only live, setting-allowed, undenied, mode-visible names inside the session's authority; an unreadable registry writes the empty array |
| ToolRuns.EveryWriteSafe | src/deferred-tools.ts:950-994 | over every run of observations, reassertions, toggles and searches against a changing host, every array written is safe and the session's kind, a worker's ceiling included, never changes |
| ToolRuns.StartSafe | src/deferred-tools.ts:736-785 | the write of a session start is safe, whichever boundary is chosen, failed starts included |
| ToolRuns.ApplyForgets | src/deferred-tools.ts:1429-1463 | a reconciled write at which a name is withdrawn, hidden, unauthorized, mode-forbidden or declined forgets its selection |
| ToolRuns.ForgottenStaysForgotten | src/deferred-tools.ts:937-947 | a name that is no selection is never written again in any run without a search that requests it, except while it is a base name |
| ToolRuns.WithdrawnStaysWithdrawn | src/deferred-tools.ts:1429-1463 | both together: a withdrawn, hidden, forbidden or declined name stays away until a search requests it |
| ToolRuns.ActivatedIsActive | src/deferred-tools.ts:1606-1653 | a name reported as activated is in the last of the search's two writes, is declared by the host after it, and is a selection of the state the search leaves |
| ToolRuns.DeclinedIsForgotten | src/deferred-tools.ts:1635-1641 | a requested name the host declines does not stay selected |
| ToolRuns.CallIsAuthorized | src/deferred-tools.ts:1208-1255 | a permitted call names a live, authorized, allowed and undenied tool, the loader only when registered and active; only a script may call an inactive one, and only a native-callable one |
| ToolInvariants.StrongestOnly | src/deferred-tools.ts:1571-1587 | a search selects exactly the matching tools that no other tool matches more strongly than, and nothing exactly when nothing matches |
| ToolRuns.MatchesAccountedFor | src/deferred-tools.ts:1606-1653 | every match within the limit is either already active or requested and nothing else is requested; the requests split, each once and in order, into those that the last write names and a readable host then declares, and the refused ones |
| ToolWrites.ApplyWritesExactly | src/deferred-tools.ts:917-994 | an application writes a name if and only if it is live, allowed, undenied and visible in the mode, and is the loader, or granted to the session and chosen or loaded automatically and not native-callable; GitRead exactly where the mode or a worker's initial tools pin it |
| ToolWrites.EveryWriteExact | src/deferred-tools.ts:917-994 | over every run each write holds exactly that, for some choice: no step loses an automatic tool |
| ToolWrites.StartWritesExactly | src/deferred-tools.ts:736-785 | the write of every kind of start holds exactly what belongs: for a top-level session, for a worker with an acceptable catalog, and the conservative set for every other |
| ToolWrites.BaselineIff | src/deferred-tools.ts:1786-1789 | the top-level baseline is exactly the authorized names of the shared initial order without GitRead |
| ToolWrites.CapturedIff | src/deferred-tools.ts:1825-1890 | exactly which configured catalogs a worker can start from |
| ToolWrites.FailClosedNamesIff | src/deferred-tools.ts:1345-1366 | a failed start keeps exactly the active names of the conservative set that can run on the host |
| ToolWrites.ToggleKeepsExactly | src/deferred-tools.ts:862-888 | changing the setting keeps exactly the selections that only scripts call and those that load automatically under the new setting |
| ToolWrites.CallAllowedIff | src/deferred-tools.ts:1208-1255 | exactly which calls are permitted |
| ToolWrites.SearchedIff | src/deferred-tools.ts:1563-1567 | a search looks among exactly the live, granted, allowed, undenied and visible tools |
| ToolWrites.ExactNameWins | src/deferred-tools.ts:1568-1587 | a tool asked for by its name is found, and then only such tools are |
| ToolWrites.MatchesIff | src/deferred-tools.ts:2039-2055 | a tool matches exactly when the query or a term is its name, or a term is part of a word of its name or of its description |
| ToolSearch.StrongestIsUnbeaten | src/deferred-tools.ts:1568-1587 | a search selects exactly the matching tools that none beats: an exact name beats all, then more terms in the name, then, where none is in a name, more in the description |
| ToolSearch.LimitedAreFirst | src/deferred-tools.ts:1574-1606 | what a search shows is the first of the selected tools by name, as many as the limit allows |
| ToolSearch.DeniedIff | src/deferred-tools.ts:1499-1506 | a query is refused exactly when it is the name of a live, authorized tool that the session could show and the top-level role denies |
| ToolSearch.BaseComesFirst | src/deferred-tools.ts:1429-1463 | after a reconciliation what loads automatically comes before everything chosen |
| ToolSearch.PlanningWritesNothingMutating | src/deferred-tools.ts:128-158 | while planning, no write holds a shell, an editing tool, a subtask start or an MCP tool |
| DeferredTools.DeferredToolManager.Reconcile | src/deferred-tools.ts:1395-1480 | the method on the manager's fields is the specified reconciliation and writes nothing |
| DeferredTools.DeferredToolManager.PruneDeclinedSelections | src/deferred-tools.ts:937-947 | the method drops exactly the declined selections |
| DeferredTools.DeferredToolManager.ComputeActiveNames | src/deferred-tools.ts:950-994 | filtering in the source's order gives the specified names |
| DeferredTools.DeferredToolManager.ApplyActiveSet | src/deferred-tools.ts:917-924 | one write of the specified names, after reconciling, then pruning |
| DeferredTools.DeferredToolManager.SetDeferredEnabled | src/deferred-tools.ts:862-888 | the toggle's new state and its writes |
| DeferredTools.DeferredToolManager.Reassert | src/deferred-tools.ts:1519-1532 | the first half of a search |
| DeferredTools.DeferredToolManager.ActivateMatches | src/deferred-tools.ts:1606-1641 | the second half of a search |
| Utf8.CutIsExact | src/capture.ts:1117-1145 | the prefix a cut sample keeps is valid UTF-8 exactly when some continuation of the sample is |
| Utf8.Utf8CompleteSequenceEnd | src/capture.ts:1117-1145 | the tail loop and its branches compute the cut that the exactness result is about |
| Utf8.ReplacementMeans | src/capture.ts:1103 | decoding shows U+FFFD exactly for invalid bytes or a genuine U+FFFD |
| Utf8.CutSampleVerdict | src/capture.ts:1091-1104 | a cut sample is binary exactly when it has a signature or a zero byte, cannot be continued to valid text, or holds a genuine U+FFFD |
| Utf8.CompleteBufferVerdict | src/capture.ts:1091-1104 | a complete buffer is binary exactly when it has a signature, or its sample a zero byte, malformed bytes or a genuine U+FFFD |
| Utf8.GenuineReplacementIsFlagged | src/capture.ts:1091-1104 | the bytes of U+FFFD are valid text without a zero byte and are called binary |
| Utf8.CutNeverCondemnsText | src/capture.ts:1091-1145 | valid text is never called binary because of where the cut falls |
| Utf8Encoding.EncodedReads | src/capture.ts:1103 | encoded characters are valid text and decode to themselves |
| Utf8Encoding.ValidIff | src/capture.ts:1117-1145 | bytes are valid exactly when they encode some characters |
| Utf8Encoding.ByteLenCounts | src/jsonl.ts:63-68 | the byte length of any string is the number of bytes of its encoding, lone surrogates replaced |
| Utf8Encoding.ByteLengthCounts | src/diff.ts:30-33 | so is the byte length of well-formed text |
| FileInspection.InspectFileHandle | src/capture.ts:993-1077 | for any division into non-empty chunks, the verdict, retained content and hashed bytes are those of one pass over the whole file, and growth or shrinkage is reported exactly |
| Snapshots.ReuseIsFresh | src/capture.ts:238-292 | reusing a trusted record gives exactly what a successful read of the file would |
| Snapshots.ReuseWalkIsFresh | src/capture.ts:151-364 | a capture reusing any trusted snapshot, under any limits and any verification outcomes, is entry for entry the capture that reads everything, where a reused entry whose read would have failed counts as read |
| Snapshots.ChainIsFresh | src/capture.ts:14-23 | over any chain of captures, each under its own limits, every snapshot is the fresh one in that sense, and plainly the fresh one where whatever verifies can be read |
| Snapshots.StepKeepsTrust | src/capture.ts:294-345 | every record a capture leaves can be trusted by later ones |
| Snapshots.CaptureEntry | src/capture.ts:170-354 | the loop body, with its early exits and its outer safety net, computes the specified step |
| Snapshots.CreateWorkspaceSnapshot | src/capture.ts:151-364 | the capture loop, ledger included, computes the specified walk |
| Snapshots.LoopHidesIff | src/capture.ts:151-364 | after the capture loop a path is hidden exactly when it was before, or the loop found a directory around it unreadable, or found one unreadable when the ledger was full |
| Snapshots.BudgetHolds | src/capture.ts:334-345 | the retained sizes of any files of the snapshot sum to at most maxSnapshotBytes |
| SnapshotRecords.CaptureRecords | src/capture.ts:151-364 | a capture that reads everything holds of each path exactly what the file system answered: nothing of one that is gone, a presence record of one that cannot be read, and of every file that can its identity and hash, with its text exactly while both limits allow and the reason otherwise |
| SnapshotRecords.FaultIsListed | src/capture.ts:170-354 | a failure is listed with its path and kind while there is room, as missing exactly for the codes of a vanished entry |
| Omissions.RecordHidesAll | src/capture.ts:766-821 | no report uncovers a path, even when it overwrites the last record |
| Omissions.RecordCovers | src/capture.ts:766-821 | every path below a directory reported unreadable is hidden, also past the bound |
| Omissions.EveryReportStaysCovered | src/capture.ts:766-821 | after any reports the ledger is within its bound and still hides everything below every directory ever reported unreadable |
| Omissions.RecordAllHidesIff | src/capture.ts:766-821 | a path is hidden after any reports exactly when it was before, or a directory around it was reported unreadable, or any directory was when the ledger was full |
| Omissions.OmissionLedger.Record | src/capture.ts:799-808 | the mutating ledger keeps its bound, its history and the truncation flag |
| Omissions.OmissionLedger.MarkUnreadableDirectorySentinel | src/capture.ts:811-821 | afterwards a sentinel is there: kept, appended while there is room, and otherwise in the place of the last record |
| Omissions.OmissionLedger.IsHidden | src/capture.ts:507-514 | the lookup answers whether some record hides the path, and does so for every directory ever reported |
| Omissions.MergeHidesAllIff | src/capture.ts:560-572 | merging an audit record keeps everything hidden exactly when it does not replace an otherwise unhidden unreadable directory by a missing one |
| Omissions.MergedHidesIff | src/capture.ts:554-574 | for any warnings and any audit, the merged ledger hides a path exactly when an unreadable directory was crowded out of the ledger, or the path lies under a directory that warnings or audit call unreadable and that the audit does not find gone |
| Omissions.MergingHidesAllIff | src/capture.ts:560-572 | the merging loop uncovers nothing exactly when an unreadable directory found the ledger full, or every directory warned of lies under one that warnings or audit call unreadable and that the audit does not find gone (or of which there are two warnings) |
| Omissions.AuditStaysHidden | src/capture.ts:554-574 | whatever the audit hides, the merged ledger hides |
| Omissions.MergeAudit | src/capture.ts:559-573 | the merging loop computes the merge within the bound and reports truncation exactly when a ledger was truncated or a record found the ledger full |
| Omissions.MergeLosesNothing | src/capture.ts:559-573 | when no record found the ledger full, the merged ledger has a record of every entry of either ledger |
| Discovery.WalkDirectories | src/capture.ts:683-709 | the recursive walk records a report for each directory it cannot read, ignored names left out, in its order |
| Discovery.AuditReportsOnce | src/capture.ts:683-709 | an audit reports no directory twice, and the root only by itself |
| Discovery.AuditIsAudited | src/capture.ts:683-709 | so its ledger, overflowed or not, holds one record per entry, with the reason its code stands for |
| Discovery.RebasedIsExact | src/capture.ts:641-654 | a re-based warning hides below the capture root exactly what the warning names below the top level; only a directory strictly around the capture root is lost |
| Discovery.DiscoverFiles | src/capture.ts:538-578 | discovery computes the merged ledger within its bound, and reports truncation exactly when a record found a ledger full |
| Discovery.DiscoveryHidesIff | src/capture.ts:538-578 | exactly which paths the ledger of discovery hides, for each way of discovering |
| Discovery.ReadingsStayHidden | src/capture.ts:556-574 | a directory that the audit or the file system walk could not read is hidden in every case |
| DiscoveryTree.ReportedIff | src/capture.ts:683-743 | a walk reports a directory if and only if it cannot be listed and is reached through listed directories, none ignored, by its path from the root |
| Omissions.UnderIff | src/capture.ts:507-514 | a path is below a directory exactly when it is that directory or continues it behind a slash |
| SnapshotComparison.CompareSnapshots | src/capture.ts:482-505 | a path is listed, once and in increasing order, exactly when it was added, deleted and not hidden, or kept with a different hash, type, mode, link target or git object; its change carries the contents of the records, old from before and new from after, and the reason if there is none |
| SnapshotComparison.ChangeIsDifference | src/capture.ts:487-501 | the status of a path, said on the two records: modified exactly when hash, type, mode, link target or git object differ |
| SnapshotComparison.ChangeCarries | src/capture.ts:744-764 | a change carries the old record's content or link target as old and the new record's as new, their flags, and the first reason |
| SnapshotComparison.EditedIff | src/capture.ts:1263-1269 | two trusted records of a regular file are reported as modified exactly when what the world holds of it or its mode differs |
| SnapshotComparison.DeletedIff | src/capture.ts:151-574 | over a whole capture a path is reported deleted exactly when it was captured before, is not now, and neither discovery nor the capture loop hides it |
| SnapshotComparison.UnreadableIsNeverDeleted | src/capture.ts:492-574 | across discovery, audit, capture loop and comparison, no path under a directory that any of them reported unreadable is reported deleted, even when the ledger overflowed; for a directory of Git's warnings, as long as discovery still hides it |
| SnapshotComparison.AuditCanUncover | src/capture.ts:560-570 | git cannot open src, which is gone when the audit reaches it: src/a.ts is reported deleted |
| SnapshotComparison.AddedIsDeletedBackwards | src/capture.ts:482-505 | comparing backwards exchanges additions and deletions and old and new content, save for hidden paths |
| ShellTokens.LiteralShellTokens | src/evidence.ts:985-1076 | the index-moving scanner terminates and gives the specified tokens |
| ShellTokens.ScanQuoted | src/evidence.ts:1037-1056 | the quote loop reads what the specification reads |
| ShellTokens.ScanWord | src/evidence.ts:1033-1064 | the word loop reads what the specification reads |
| ShellTokens.QuoteReads | src/evidence.ts:1035-1069 | a single-quoted word is read back whole and literal, whatever its characters |
| ShellTokens.QuotedWordsReadBack | src/evidence.ts:923-924 | any words, quoted in the dialect's way and joined by spaces, tokenise to exactly those words: no operator, assignment or prefix |
| ShellTokens.HeredocBodiesAreData | src/evidence.ts:996-1005 | whatever here-documents are pending, tabs stripped or not, their bodies yield no token; scanning resumes behind the last closing line with nothing pending |
| ShellTokens.UnclosedBodyIsData | src/evidence.ts:996-1005 | a body that no line closes reaches to the end of the command |
| ShellTokens.HeredocBodyIsData | src/evidence.ts:996-1020 | a here-document from its operator on: operator, delimiter word and newline are the only tokens before what follows its closing line |
| ShellWords.WordReads | src/evidence.ts:1033-1064 | a word written from plain characters, escapes, single-quoted and double-quoted parts is read as their text, literal exactly when no part expands: no unescaped dollar or POSIX backquote outside single quotes, no unquoted glob |
| ShellWords.CommandReads | src/evidence.ts:985-1076 | a command written from such words and operators, spaced or touching, is tokenised to exactly those, with text, literalness and flags |
| ShellWords.AssignmentReads | src/evidence.ts:1027-1029 | a word is an assignment exactly when it starts with an unquoted name and equals sign |
| ShellWords.PrefixReads | src/evidence.ts:1030-1032 | a word is a command prefix exactly when it is an unquoted brace or exclamation mark alone |
| ShellWords.CommentIsNothing | src/evidence.ts:1009-1013 | a comment reaches to the end of its line |
| ShellWords.DescriptorIsNothing | src/evidence.ts:1014-1019 | the digits of a descriptor are passed over |
| ShellWords.UnclosedIsNotLiteral | src/evidence.ts:1037-1056 | an unclosed quote takes in the rest, which is not literal |
| ShellWords.ClosesIff | src/evidence.ts:996-1005 | a line closes a here-document exactly when it is the delimiter, behind tabs only if they are stripped |
| ShellPaths.ExtractShellCandidatePaths | src/evidence.ts:918-971 | the two loops over the tokens find the specified paths and signals |
| ShellPaths.PathsAreLiteralWords | src/evidence.ts:918-971 | every extracted path is the text of a literal word of the command |
| ShellPaths.RedirectionIsSeen | src/evidence.ts:918-971 | a command is reported as redirecting, or as holding a here-document, exactly when one of its tokens is such an operator; a useful literal target that is no null sink is among the extracted paths |
| ShellPaths.QuotedCommandActsOnce | src/evidence.ts:923-968 | of a command whose words are all quoted, only the first acts; the others are its data |
| ShellEffects.CommandActs | src/evidence.ts:946-967 | behind any flags `cp` touches its second operand, `mv` both, `rm`, `touch` and `mkdir` their first, `tee` writes its first unless that is a null sink, each with its signal; other tools nothing |
| ShellEffects.CommandSpares | src/evidence.ts:955-967 | without the literal operands it needs no tool touches anything |
| ShellEffects.EditorsSignal | src/evidence.ts:951-953 | a stream editor gives its signal exactly when an argument is flags ending in `i` at the end of a word, and touches no path |
| ShellEffects.ScriptActs | src/evidence.ts:934-968 | in a script every command acts by itself, behind assignments, prefixes and redirections, and nothing behind its name is taken for another |
| ShellEffects.WrittenScriptActs | src/evidence.ts:918-971 | the same for the text of a script, however its words are quoted |
| ShellEffects.ExtractedIff | src/evidence.ts:970 | of the paths touched exactly those are extracted that are no empty word, lone dash, variable or number |
| ShellEffects.UniqueKeepsFirst | src/evidence.ts:970 | each element is kept once, in the order of first occurrence |
| Utf8Prefix.ByteLenOfJoin | src/jsonl.ts:128 | byte lengths add up across a join, except that completing a surrogate pair costs less |
| Utf8Prefix.LongerIsLarger | src/jsonl.ts:66-70 | byte lengths of prefixes grow strictly |
| Utf8Prefix.Utf8Prefix | src/jsonl.ts:61-73 | the binary search returns the longest prefix that fits and splits no surrogate pair |
| Utf8Prefix.FitIsLongest | src/jsonl.ts:61-73 | reading character by character finds the same prefix |
| Accumulator.AccumulatedWithin | src/jsonl.ts:36-58 | actual bytes are at most the counter, the counter at most the limit, and the text is everything received exactly when not truncated |
| Accumulator.PrefixUnlessSkips | src/jsonl.ts:51-58 | the value is a prefix of everything received exactly when no chunk is skipped into, for any code units |
| Accumulator.AccumulatorCanSkip | src/jsonl.ts:51-58 | a smaller chunk can still be taken after one that did not fit |
| Accumulator.BoundedTextAccumulator.Append | src/jsonl.ts:51-58 | appending takes in the longest fitting prefix |
| Accumulator.BoundedTextAccumulator.Truncated | src/jsonl.ts:36-38 | the flag says whether the value differs from everything received |
| Jsonl.LinesSpellText | src/jsonl.ts:95-106 | the lines and tail of a text, put together again, are the text |
| Jsonl.PushMeans | src/jsonl.ts:95-140 | a chunk carries the line and byte counts of the text into the decoder's fields |
| Jsonl.RecordsOfChunks | src/jsonl.ts:80-148 | for any chunks, the records are the lines of the whole text whose counted bytes fit, a line's count being its bytes or more, and exactly its bytes when no pair is split |
| Jsonl.OvercountMatters | src/jsonl.ts:122-133 | counting too much changes the oversized count exactly when it takes a record that fits over the limit, and otherwise no record either |
| Jsonl.ChunkingIsIrrelevantIff | src/jsonl.ts:80-148 | records and oversized count are those of the whole text exactly when no record that fits is counted over the limit |
| Jsonl.ChunkingIsIrrelevant | src/jsonl.ts:80-148 | for chunks that split no surrogate pair, records and oversized count are those of the whole text |
| Jsonl.PendingIsBounded | src/jsonl.ts:122-140 | for any chunks, pending bytes never exceed the limit |
| Jsonl.SplitPairOvercounts | src/jsonl.ts:128-133 | cut inside a surrogate pair, a record that fits is counted as oversized |
| Jsonl.BoundedJsonlDecoder.Push | src/jsonl.ts:95-106 | the loop over newlines is the specified step |
| Jsonl.BoundedJsonlDecoder.Append | src/jsonl.ts:122-140 | the segment rule with its discarding state |
| Jsonl.BoundedJsonlDecoder.Finish | src/jsonl.ts:108-116 | the end of the text emits a fitting tail and resets |
| Jsonl.DecodeChunks | src/jsonl.ts:80-148 | a fresh decoder fed any chunks gives the lines whose counted bytes fit, and the records of the whole text exactly when no record that fits is counted over the limit |
| JsonlRecords.WrittenReadBack | src/jsonl.ts:95-148 | records written with either line end are read back as they were and in order, those that fit with their line end's carriage return; the others are counted |
| JsonlRecords.StreamReadsBack | src/jsonl.ts:80-148 | so they are by a decoder fed the stream in any chunks that split no pair |
| CanonicalJson.SameValuesPrintAlike | src/canonical-json.ts:16-23 | values equal up to key order print alike |
| CanonicalJson.QuotedUnique | src/canonical-json.ts:16-23 | a printed string determines its contents and where it ends |
| CanonicalJson.NumberUnique | src/canonical-json.ts:16-23 | a printed number before a delimiter determines itself |
| CanonicalJson.TextDeterminesValue | src/canonical-json.ts:16-23 | a value's text before a delimiter determines the value up to key order and where the text ends |
| CanonicalJson.EqualTextsIffSameValues | src/canonical-json.ts:16-23 | texts are equal exactly when the values are equal up to key order |
| JsonReader.QuotedReads | src/canonical-json.ts:16-23 | a reader of string literals gets back any string, lone surrogates included |
| JsonReader.TextReadsBack | src/canonical-json.ts:16-23 | a reader of JSON texts gets back from a canonical text the value printed, with its keys in increasing order and null for what JSON cannot say, and stops where the text ends |
| ConfigRecovery.RecoverConfig | src/config.ts:711-838 | for any validator accepting the empty document: the result validates, is a part of the input, is the input when that is valid, all that is missing is named by a warning, and the protection block never silently vanishes; what may refer to other settings is tried on top of all of those that stay; for a validator that judges part by part, the result holds exactly the good settings and array entries |
| ConfigRecovery.WholeWithoutWarnings | src/config.ts:711-838 | a document explained by no warning at all is the whole input, up to the order of properties |
| ConfigRecovery.Recover | src/config.ts:726-766 | one property is kept, repaired or left out, the candidate valid throughout and what is lost named by a warning; it is left out exactly when it is refused and neither the empty container nor the empty array would be accepted in its place; an array that is repaired loses exactly the entries refused at their turn |
| ConfigRecovery.RecoverItems | src/config.ts:751-763 | an array entry is dropped exactly when it is refused on top of those kept before it; the others are kept in order, and each dropped position has one warning, in order |
| ConfigRecovery.RecoverArray | src/config.ts:751-763 | an array that can be repaired keeps exactly the entries accepted at their turn, the good ones if entries are judged one by one |
| ConfigRecovery.RecoverContainer | src/config.ts:744-750 | a container that can be repaired keeps what should be kept of each of its settings |
| ConfigRecovery.GoodIsRepaired | src/config.ts:743 | what is good stays as it is |
| ConfigRecovery.DroppedAreBad | src/config.ts:753-762 | entries judged one by one: exactly the bad ones are dropped |
| ConfigRecovery.LastComeLast | src/config.ts:809-814 | once an entry that may refer to others has come, only such entries follow |
| ConfigRecovery.RecoverDelayPair | src/config.ts:815-826 | the coupled delay bounds are kept as a pair exactly when they validate together, and otherwise both dropped with a warning |
| ConfigRecovery.RecoverToolProtection | src/config.ts:776-806 | a block that does not validate is removed and its error set, naming the validator's message |
| ConfigRecovery.RecoverObject | src/config.ts:808-831 | every property of the result comes from the input, every one that is missing is named by a warning, those that may refer to others are tried last, and a validator that judges part by part gets exactly the good parts |
| DurableDelivery.DeliveredAtMostOnce | src/durable-delivery.ts:39-70 | over every interleaving of dispatches, saves, failures, crashes and restores, a second deliver call for an id comes only after one that returned false; ids stay unique |
| DurableDelivery.NeverDeliveredAgain | src/durable-delivery.ts:44-48 | once a call returned true, threw or was cut off, no continuation of the run calls deliver for it again |
| DurableDelivery.StepKeepsInv | src/durable-delivery.ts:39-70 | every atomic step keeps the protocol's invariant |
| DurableDelivery.DeclineKeepsInv | src/durable-delivery.ts:58-61 | returning a record to the queue frees it in memory only |
| DurableDelivery.EnqueueKeepsIdsUnique | src/durable-delivery.ts:25-37 | queueing keeps ids unique |
| DurableDelivery.ReviewGateState.QueueModelDelivery | src/durable-delivery.ts:25-37 | a known id is not queued again |
| DurableDelivery.ReviewGateState.BeginDispatch | src/durable-delivery.ts:44-51 | the status decides whether a dispatch begins, and only a queued record becomes dispatching |
| DeliveryRuns.QueuedIsDelivered | src/durable-delivery.ts:39-70 | a dispatch that nothing interrupts calls deliver once, with the message on record, and leaves it durably delivered, queued again or uncertain as the call went, and no other message changed |
| DeliveryRuns.BeginsOnRecord | src/durable-delivery.ts:49-52 | before its call a dispatch is durably recorded as dispatching |
| DeliveryRuns.StatusMoves | src/durable-delivery.ts:25-70 | the status of every id after every step, and that saving makes the durable state the current one |
| ReasoningArgs.ParseLiteralReasoning | src/external-agent-reasoning.ts:23-79 | the loop, with its set of distinct levels, computes the specified import |
| ReasoningArgs.ParseConserves | src/external-agent-reasoning.ts:23-79 | removed tokens and remaining arguments add up to the input, and the remaining ones are a subsequence of it |
| ReasoningArgs.WrittenRead | src/external-agent-reasoning.ts:23-68 | of arguments written from settings in any form and from others, the others are left in order, and the levels are the known values |
| ReasoningArgs.WrittenImport | src/external-agent-reasoning.ts:23-79 | the import names a level exactly when there are settings and all of them name it, is malformed exactly when some value is unknown and conflicting exactly when two known levels differ, and warns accordingly |
| ReasoningArgs.EncodeReadsBack | src/external-agent-reasoning.ts:81-85 | reading what was written gives the effort and nothing else |
| ReasoningArgs.ReplacedSettingReadsBack | src/external-agent-reasoning.ts:88-91 | arguments built for an effort hold exactly one setting, and are read back as that effort, if and only if removal joins nothing up |
| ReasoningArgs.ParseAppend | src/external-agent-reasoning.ts:23-79 | arguments put behind others are read on their own when they start with a flag that sets no effort |
| ReasoningArgs.ClaudeNeverJoinsUp | src/external-agent-reasoning.ts:34-44 | for Claude that always holds |
| ReasoningArgs.LeftoverIsFreeIff | src/external-agent-reasoning.ts:46-66 | the leftover holds no setting exactly when removal brings no kept flag next to a kept effort assignment |
| ReasoningArgs.RemovalCanJoinUp | src/external-agent-reasoning.ts:46-66 | a setting between a flag and an assignment joins them when removed |

## Left out

- Process and file I/O, hashing, abort signals and time stamps: reads, stats and saves are what the parameters say.
- The table of binary signatures (`hasKnownBinaryMagic`): the parameter `magic`.
- Symlink and gitlink capture in `src/capture.ts`: their record and report enter the walk as given.
- Parsing Git's listing and warnings (`discoverGitFiles`, `parseGitDirectoryWarnings` in `src/capture.ts`): warned paths are given, listed paths are the candidates of the capture; `gitWarningPathRelativeToCwd` is modelled with POSIX separators.
- Discovery.RebasedIsExact: does not speak of absolute paths and paths above the top level, which are dropped, nor of a path that ends in `/.` at the capture root, which Git does not print.
- `createPathSnapshot` in `src/capture.ts`: the single-path variant of the same rules.
- The whole of `search` as one class method: `Reassert` and `ActivateMatches` are its two writing halves, `ToolAuthority.Search` composes them, and its answer is `ToolAuthority.FoundBy`.
- Schema acquisition, registration provenance, denial texts and metadata trimming in `src/deferred-tools.ts`; the boundary retained for a session is a parameter of `ToolAuthority.Start`.
- ToolRuns.CallIsAuthorized: takes the name as trimmed.
- The call gate of a session whose start failed (`failClosedToolCallAllowed` in `src/deferred-tools.ts`): membership in the set `ToolAuthority.FailClosedNames` fixes at the start.
- ShellWords.CommandReads: leaves out the operators that start a here-document, of which `ShellTokens.HeredocBodyIsData` speaks.
- ReasoningArgs.WrittenRead: speaks of other configuration keys only when they are written without blanks.
- Unicode lower-casing and word splitting in tool search: the functions `lower` and `words` of a query.
- Update in place of the shared candidate tree in `src/config.ts`: recovery works on values, the surrounding document being the function `plug`.
- The individual field normalisers and the mode-cycle chord strings in `src/config.ts`: one-pass checks without a property across functions.
- Receipts and transports behind `deliver` in `src/durable-delivery.ts`: a receipt is a step that marks a record delivered; writes of saved states are taken to be ordered.
- `src/git-checkpoint.ts` is not part of this model; its comparison report is the input of the review delta, and the two UTF-8 decoders that module's bytes go through are parameters.
- Display bounding in `src/evidence.ts` (`boundObservedDisplayValue`): a size budget with no property beyond its own body.
- JavaScript's reordering of integer-like property names: a document lists its properties in the order they were defined.
