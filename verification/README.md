# HMA: a verified model

HMA records human decisions about a coding run in one hash chain, records what
the host did in a second one, derives launch authority from the first, charges
it in the second, and audits it later from dispatch ledgers. This project models
that protocol and the self-contained algorithms beside it, and proves what they
promise. `dafny verify dfyconfig.toml` checks all of it.

## How it is organised

- `EditScripts`, `LineIndex`, `LineDiff`: the greedy line diff, from edit
  scripts and reachability on an unbounded grid down to the in-place array.
- `Chain`, `CoreStore`, `HostStore`, `PathLookup`: the two stores as sequences
  of file operations, each of which may happen, fail without effect, or fail
  with its effect, so that every crash point is covered, recovery included.
- `Vocabulary`, `Documents`, `CoreModel`, `StageState`, `Transitions`,
  `Resolution`, `Resolving`, `StageMachine`, `CoreWriters`: the stage machine
  over the core chain, and any interleaving of its writers.
- `Lease`, `StageLeases`, `Revocation`, `HostModel`, `Reconcile`, `Attempt`,
  `AttemptLaws`, `HookRuns`, `HookResults`, `PolicyRuns`, `Shadowing`,
  `HookWitness`: authority, its charging, its end and its audit, over whole runs.
- `PlanGraph`, `Checkpoint`, `CanonicalJson`, `PythonJson`, `Surrogates`,
  `PrintedStrings`, `WorktreeDigest`, `IndexCheck`, `Findings`: plan graphs, globs
  and checkpoints, the two encoders, the surrogate check, the index comparison,
  and the findings import.

Where a method computes what a specification function says, the function itself
is pinned by a lemma, named `...Exactly` or `...IsLast`, that says by quantifiers
over the records, and without the function, when its answer is given.

## How the world is modelled

- A SHA-256 digest is an injective constructor: an anchor, a plan digest or a
  route identity *is* what it digests. Equal digests therefore mean equal
  content, which is the assumption the program itself makes. The line index's
  64-bit hash is not abstracted: it is computed, and never trusted alone.
- A time is an integer of nanoseconds and a timestamp field is empty,
  unreadable, or a time. Go's zero time is 0. Integers are unbounded except in
  the line hash.
- Files are a small record of named contents. The run lock is exclusive, so an
  execution is the sequence of lock holders. Clocks, the controller's state, the
  dispatch ledger and the repository appear as parameters, chosen freely.
- Record validation is a parameter of the stores. The stage machine uses the
  parts of it that decide what a chain replays to.
- The sorted lists a checkpoint decision reports are modelled as sets, a
  manifest digest as the multiset it is a digest of, and the sort before
  reconciliation as any order of the runs.
- A core record has the length of its line; the streams are the ones the store
  wrote. The findings an import compares with are those that
  `AssignLegacyOwners` gave owners (`cmd/hma/review.go:899`).
- Host paths are taken as already resolved, so comparing two of them is
  equality.

## What is not as its documentation says

The code is modelled as it is. Where a promise holds only under a condition, the
condition is proved exact, and where it fails, the failing case is a lemma.

- `internal/engine/resolution.go:36-38` says the projection only reports. It
  keeps a record's own findings list when the record is not a snapshot, and an
  override then writes into it. `internal/store/jsonl.go:321-329` writes the same
  records again, so a transaction that projects and then appends leaves a run
  that loads if and only if every such list still reads as recorded, and the new
  line can be read (`Resolution.ProjectAndAppend`, `Resolution.OverrideDisturbs`).
- `internal/store/jsonl.go:99-100` reads a stream line by line into a buffer of
  4 MiB, and no append looks at a record's size. An acknowledged record whose
  line is 4 MiB or longer leaves a run that no later load, append or session can
  read; the run loads again if and only if every line is shorter
  (`CoreStore.OverlongNeverLoads`, `CoreStore.Store.Append`, `CoreStore.Run`).
  Nothing bounds such a record: an evidence record lists every changed file
  (`cmd/hma/credit.go:391-400`) and a resolution carries a free text. The host
  store has no such limit.
- The session that `internal/store/jsonl.go:251-278` hands its callback can
  append again after a failed append. The run stays loadable if and only if the
  failed append had not reached the stream, or had moved the head too and its
  line can be read (`CoreStore.RetryAfterFailedAppend`). The callers stop at the
  first failure. The host store's session refuses a second commit
  (`HostStore.Transaction.Commit`).
- The hook refuses a dispatch id that a review packet carries, but the check
  before a review packet is issued (`internal/host/host.go:1012-1020`) does not
  look at reservations. A granted launch is authorized later if and only if no
  packet has taken its id (`HookResults.GrantedLaunchIsAuthorized`). A fresh
  grant meets no such packet, and every run that grants can go on to repeat the
  grant with one (`Shadowing.PacketShadowsGrant`).
- `internal/host/reconcile.go:422-427` takes a revocation that cannot be placed
  as one at the zero time. Once the core chain has its head, the revocation has
  its own time again and the end rises (`HostModel.PolicyEndFallsIffKnown`). The
  commands only file observations at a head the chain has, so in their runs it
  never does (`PolicyRuns.RevokedPolicyOnlyFalls`).
- `internal/engine/resolution.go:76-91` lets a human move a WAIVABLE finding to
  ADVISORY and leaves its advisory disposition empty, which
  `internal/model/validate.go:294-297` refuses. While such a finding stands, no
  findings import of another unit is recorded; an import validates if and only if
  the findings of the other units do (`Findings.SnapshotRecordable`,
  `Findings.OverrideStopsImports`).
- `internal/engine/transitions.go:63-65` calls the row to GROUNDING and PLANNING
  a return. From GROUNDING it leads forward, so a run can pass the acceptance of
  criteria by: it has been there when it first gets beyond it if and only if its
  first move was to it (`StageMachine.RunAcceptsFirst`,
  `StageMachine.AcceptanceCanBeSkipped`). No later gate can be
  (`StageMachine.NoGateSkipped`).

## Model

| member | source | states |
|---|---|---|
| `LineIndexing.NewLineIndex` | cmd/hma/observe.go:472-492 | The index built in one pass holds, line by line, the offsets and hashes of the unique split of the data. |
| `LineIndexing.SplitIsSplit` | cmd/hma/observe.go:472-492 | The lines concatenate back to the data, none is empty, and every line but perhaps the last ends in its only newline. |
| `LineIndexing.SplitIsUnique` | cmd/hma/observe.go:472-492 | Those two conditions hold of one sequence of lines and no other. |
| `LineIndexing.SplitInjective` | cmd/hma/observe.go:472-492 | Equal line sequences come from equal data. |
| `LineIndexing.HashAndBytes` | cmd/hma/observe.go:550-552 | Comparing 64-bit hashes and then bytes is exactly line equality. |
| `LineIndexing.ObservedCountLines` | cmd/hma/observe.go:577-594 | The counted number is the number of lines of the split. |
| `LineIndexing.HasNul` | cmd/hma/observe.go:569-576 | True exactly when one of the first 8000 bytes is zero. |
| `EditScripts.ReachScript` | cmd/hma/observe.go:527-565 | A point the search can reach at cost d has an insert/delete script of cost exactly d between the two prefixes. |
| `EditScripts.ScriptReach` | cmd/hma/observe.go:527-565 | Conversely every script between two prefixes is a path of its own cost, so reachability and scripts coincide. |
| `EditScripts.ClampReach` | cmd/hma/observe.go:540-559 | A point outside the grid reached at cost d pulls back to the grid at a cost smaller by its overshoot. |
| `EditScripts.ShortestIsMinimal` | cmd/hma/observe.go:559-563 | At the least cost that reaches the corner, cost and length difference have one parity, both divided counts are exact naturals, and no script deletes or inserts less. |
| `EditScripts.AllLinesBound` | cmd/hma/observe.go:519-525 | Counting every line on both sides is componentwise at least the minimal counts, with the same difference. |
| `EditScripts.MinimalCountsAreLcs` | cmd/hma/observe.go:559-563 | Counts are minimal if and only if they are the two lengths minus the length of a longest common subsequence. |
| `FurthestReaching.FurthestIsReached` | cmd/hma/observe.go:540-558 | What the search stores for a diagonal in round d is reachable at cost d. |
| `FurthestReaching.NothingIsFurther` | cmd/hma/observe.go:540-558 | Nothing reachable at cost d lies further along its diagonal than what the search stores. |
| `FurthestReaching.FirstDoneIsCorner` | cmd/hma/observe.go:559-563 | The first point past both ends is the corner itself, on the diagonal of the length difference, and no smaller cost reaches it. |
| `LineDiff.ReadEntry` | cmd/hma/observe.go:541-547 | Reading the two neighbouring cells of the array gives the entry of the diagonal, with the array still holding the other parity from the last round. |
| `LineDiff.Diagonal` | cmd/hma/observe.go:541-559 | One diagonal slides to its furthest point and overwrites exactly its own cell of the array. |
| `LineDiff.Round` | cmd/hma/observe.go:533-565 | A round that finds no end leaves the array holding the whole next round, and no end exists at its cost. |
| `LineDiff.Search` | cmd/hma/observe.go:527-566 | The search returns the edit distance when it returns one, stays inside the array, and without interruption fails only beyond the caps. |
| `LineDiff.DistanceIsLcs` | cmd/hma/observe.go:559-563 | The distance found is the two lengths minus twice the longest common subsequence. |
| `LineDiff.LineDiffCounts` | cmd/hma/observe.go:496-567 | Not flagged, the counts are minimal for the two windows; flagged, they are all lines; it is flagged whenever the input exceeds the limits and, uninterrupted, only then. |
| `PlanGraph.CheckUnits` | internal/model/contract.go:557-573 | Accepts exactly the non-empty lists of well-formed units with distinct ids, and then indexes them all. |
| `PlanGraph.CheckDependencies` | internal/model/contract.go:574-580 | Accepts exactly when each dependency is another unit of the plan. |
| `PlanGraph.CycleSearch.Visit` | internal/model/contract.go:582-599 | The colouring search blackens a unit only with everything it depends on, and reports a cycle only when there is one. |
| `PlanGraph.ValidatePlan` | internal/model/contract.go:553-611 | Given the other checks, a plan is accepted if and only if its dependency graph is acyclic, and then no unit is in its own closure. |
| `PlanGraph.OrderedIsAcyclic` | internal/model/contract.go:581-610 | An order in which every unit follows its dependencies excludes every cycle. |
| `PlanGraph.Marking.Visit` | internal/engine/lease.go:355-363 | Marks only what the root depends on and closes what it marks; it terminates on any graph. |
| `PlanGraph.DependencyClosure` | internal/engine/lease.go:349-366 | Returns exactly the units transitively depended on. |
| `Glob.MatchCheckpointGlob` | internal/engine/checkpoint.go:231-259 | The filled table answers exactly the recursive match of the two segment lists. |
| `Glob.SplitIsSplit` | internal/engine/checkpoint.go:231-233 | Joined by slashes the segments give the text back, and none holds a slash. |
| `Glob.MatchesIsCut` | internal/engine/checkpoint.go:226-259 | A match is the same as cutting the path into one piece per glob segment, any piece for `**` and one segment for the others. |
| `Glob.StarStar` | internal/engine/checkpoint.go:245-250 | The row for `**` is the disjunction of the cell above and the cell before. |
| `Checkpoints.ClassesOf` | internal/engine/checkpoint.go:200-209 | A path has a class if and only if a matching rule gives it. |
| `Checkpoints.ClassifyChangedPaths` | internal/engine/checkpoint.go:197-224 | Every manifest path gets exactly its classes, and the unclassified ones are exactly those with none. |
| `Checkpoints.Observe` | internal/engine/checkpoint.go:112-151 | The observed triggers and the risk floor are the ones the manifest's classes call for. |
| `Checkpoints.CollectTriggers` | internal/engine/checkpoint.go:106-165 | The reported triggers are exactly the conditions that fire. |
| `Checkpoints.MaxRouteRisk` | internal/engine/checkpoint.go:291-300 | The greatest of the given risks by rank. |
| `Checkpoints.ClassifyCheckpoint` | internal/engine/checkpoint.go:105-191 | Triggers, level, floor, required risk and separation are those derived from which conditions fire. |
| `Checkpoints.TriggersExactly` | internal/engine/checkpoint.go:112-165 | Each of the eight triggers is reported if and only if its own condition holds of the input, stated one by one. |
| `Checkpoints.DecisionExactly` | internal/engine/checkpoint.go:105-191 | The level is final exactly for a claimed outcome and a checkpoint exactly when validation has a trigger; separation, floor and required risk each have their own condition. |
| `Checkpoints.OrderIrrelevant` | internal/engine/checkpoint.go:105-224 | Permuting manifest and rules changes nothing in the decision. |
| `Checkpoints.MorePathsNeverRelax` | internal/engine/checkpoint.go:105-224 | One more changed path removes no trigger or unclassified path and lowers no level, floor or required risk. |
| `Runes.ByteOrderIsCodePointOrder` | internal/host/canonical.go:64-66 | Sorting keys by UTF-8 bytes is sorting them by code points. |
| `Runes.SortKeys` | internal/host/canonical.go:60-66 | The keys in the one strictly ascending order they have. |
| `Runes.SortedKeysUnique` | internal/host/canonical.go:60-66 | Two sorted lists of the same keys are the same list, so input key order is irrelevant. |
| `CanonicalJson.WritePyString` | internal/host/canonical.go:85-116 | Appends the escaped form of the string to the shared buffer; `PythonJson.StringFormExactly` says which bytes those are. |
| `CanonicalJson.WritePy` | internal/host/canonical.go:34-83 | Appends the printed value to the shared buffer; `PythonJson.FormExactly` says which bytes those are. |
| `CanonicalJson.RuneRoundTrip` | internal/host/canonical.go:87-114 | Each rune is recovered from its escape, surrogate pairs included, with the input after it. |
| `CanonicalJson.StringRoundTrip` | internal/host/canonical.go:85-116 | Each string is recovered from its quoted form, with the input after it. |
| `CanonicalJson.RoundTrip` | internal/host/canonical.go:34-116 | A parser recovers the value tree and the remaining input from the printed bytes. |
| `CanonicalJson.PrintInjective` | internal/host/canonical.go:19-116 | Two values print alike if and only if they are equal. |
| `PythonJson.StringFormExactly` | internal/host/canonical.go:85-116 | A string is written with exactly the seven short escapes, one four-digit unit for other controls and for 0x7F to 0xFFFF, a surrogate pair above, and the byte itself otherwise, and in no other way. |
| `PythonJson.FormExactly` | internal/host/canonical.go:34-116 | A value is written with its keys in ascending order, no spaces, and the literals, numbers and strings of that form, and in no other way. |
| `PythonJson.PythonCanonical` | internal/host/canonical.go:19-32 | What is digested has that form. |
| `Surrogates.CheckSurrogates` | internal/model/contract.go:379-433 | The scan accepts exactly the texts whose escapes, read from the left, pair each high surrogate with the low one right after it. |
| `Surrogates.PairedMeansNoneAlone` | internal/model/contract.go:377-379 | That is: no surrogate escape is alone, high or low. |
| `Surrogates.Hex4Exactly` | internal/model/contract.go:380-399 | Four digits after backslash-u, in either case, are read most significant first, and nothing else is read. |
| `PrintedStrings.PrintedStringPasses` | internal/model/contract.go:377-433 | No string the canonical encoder prints is refused by the surrogate check. |
| `WorktreeDigest.WriteFramed` | internal/repostate/snapshot.go:285-290 | Appends the eight-byte length and the bytes. |
| `WorktreeDigest.WriteReadEntry` | internal/repostate/snapshot.go:223-250 | With a reader, an entry is written if and only if it is readable and unchanged since it was first read. |
| `WorktreeDigest.WriteDirectEntry` | internal/repostate/snapshot.go:251-280 | Without one, exactly the readable entries are written. |
| `WorktreeDigest.WriteWorktree` | internal/repostate/snapshot.go:202-283 | Both branches write the same stream for the same worktree, and fail exactly on unreadable or changed entries. |
| `WorktreeDigest.FrameRoundTrip` | internal/repostate/snapshot.go:285-290 | A framed field is recovered with the bytes after it. |
| `WorktreeDigest.StreamRoundTrip` | internal/repostate/snapshot.go:202-283 | The whole stream decodes to its head and items. |
| `WorktreeDigest.StreamInjective` | internal/repostate/snapshot.go:202-283 | Streams are equal if and only if head, paths, staged entries, kinds, execute bits and contents are. |
| `IndexCheck.StagedEntries` | internal/repostate/snapshot.go:541-558 | Each wanted path gets its index entries, in order and joined, and no other path any. |
| `IndexCheck.WantedIsLast` | internal/repostate/snapshot.go:563-571 | The tree's entry of a path is its last listed line. |
| `IndexCheck.JoinedTellsEntries` | internal/repostate/snapshot.go:538-558 | Fields without a semicolon are told by the joined text: equal texts mean equal entries. |
| `IndexCheck.IndexDiffersFromTree` | internal/repostate/snapshot.go:563-585 | Reports a difference exactly when some line does not match the tree or the counts differ. |
| `IndexCheck.NoDifferenceIsSameEntries` | internal/repostate/snapshot.go:572-584 | With one line a path, no difference is the same as equal entries. With no difference, or with equal entries, the two agree only then. |
| `IndexCheck.PathCount` | internal/repostate/snapshot.go:572-584 | A list names as many paths as it is long if and only if none repeats. |
| `Findings.MapAuditFindings` | internal/host/findings_import.go:60-89 | Accepts exactly distinct, slash-free, unreserved ids, and each finding blocks or is waivable only on a fact HMA measured. |
| `Findings.AddEstablishedFindings` | internal/host/findings_import.go:120-132 | Appends exactly the findings the measured facts establish. |
| `Findings.EstablishedExactly` | internal/host/findings_import.go:120-132 | HMA raises a blocking finding for a broken kernel rule and a waivable one for each exceeded budget, and no other. |
| `Findings.SnapshotFindings` | internal/host/findings_import.go:156-183 | Computes the snapshot that the laws below are about. |
| `Findings.SnapshotExactly` | internal/host/findings_import.go:156-183 | Without approval the unit's findings are the imported ones under its name, each replaced by a stronger one it had, and those it had that block or can be waived and are not named again. |
| `Findings.OthersUnchanged` | internal/host/findings_import.go:156-183 | A finding of another unit, or of none, is in the snapshot if and only if it was there before. |
| `Findings.BlockersStay` | internal/host/findings_import.go:160-181 | Without approval a BLOCK or WAIVABLE finding of the unit is still there, at least as strong. |
| `Findings.ApprovalReplaces` | internal/host/findings_import.go:168-170 | An approving review leaves exactly its own findings for its unit. |
| `Findings.BlockersOutlast` | internal/host/findings_import.go:156-183 | Over any sequence of imports, refused ones included, a BLOCK or WAIVABLE finding survives, no weaker, until its unit is approved; ids stay unique. |
| `Findings.NamespacedIdsDiffer` | internal/host/findings_import.go:137-137 | With no slash in source ids, two namespaced ids are equal if and only if unit and id are. |
| `Findings.ImportKeepsIdsUnique` | internal/host/findings_import.go:156-183 | A snapshot of well-named findings has unique ids again, so the import's own duplicate check never refuses it. |
| `Findings.SnapshotRecordable` | internal/model/validate.go:289-301 | With mapped findings and blockers as recorded, a snapshot validates if and only if every finding of the other units does. |
| `Findings.MappedRecordable` | internal/host/findings_import.go:60-132 | What a report is mapped to and what is established validate. |
| `Findings.OverrideStopsImports` | internal/model/validate.go:294-297 | After an override from WAIVABLE to ADVISORY no snapshot of another unit validates. |
| `Findings.EstablishedReserved` | internal/host/findings_import.go:107-132 | Established findings carry distinct reserved ids. |
| `Findings.ImportsAreImportable` | internal/host/findings_import.go:60-132 | What a report raises and what is established never share an id. |
| `Chain.AnchorNamesChain` | internal/store/jsonl.go:42-50 | Equal head anchors mean equal chains. |
| `CoreStore.Store.ReadChain` | internal/store/jsonl.go:88-127 | Returns the stream's records exactly when they are a valid chain and each line is shorter than 4 MiB. |
| `CoreStore.Store.RecoverPending` | internal/store/jsonl.go:134-148 | Finishes or forgets an interrupted append; whatever step it is cut at, the files are one of three. |
| `CoreStore.Store.LoadLocked` | internal/store/jsonl.go:182-205 | Succeeds exactly when the files stand for a log whose lines can be read, returns that log and settles the files; interrupted, the files still stand for it. |
| `CoreStore.Store.AppendLocked` | internal/store/jsonl.go:304-350 | Refuses exactly what does not continue the given records; success settles them and the new one; cut short, it leaves one of five states. |
| `CoreStore.Store.Append` | internal/store/jsonl.go:281-300 | Whatever log the files stood for, they stand afterwards for it, or for it and the record if it could be loaded. Once the append is acknowledged, the run loads if and only if the record's line is shorter than 4 MiB. |
| `CoreStore.Store.Transact` | internal/store/jsonl.go:251-278 | One load and any number of appends under one lock, cut anywhere: the files stand for the loaded log, what was acknowledged, and at most the one record that failed. A run with no files takes no record. |
| `CoreStore.CutShortLoads` | internal/store/jsonl.go:304-350 | Each state a cut-short append can leave stands for the old chain or the new, and loads unless the new record is in the stream and too long a line. |
| `CoreStore.OverlongNeverLoads` | internal/store/jsonl.go:99-100 | After an acknowledged append of a record of 4 MiB or more the files stand for the new log, and no load succeeds. |
| `CoreStore.StandsForOne` | internal/store/jsonl.go:182-205 | Files stand for at most one log. |
| `CoreStore.LoadableIffFits` | internal/store/jsonl.go:88-127 | Files that stand for a log load if and only if each of its lines is shorter than 4 MiB. |
| `CoreStore.OnlyTheAnchoredChain` | internal/store/jsonl.go:182-205 | With no intent left, the head accepts only the chain it was written for: a truncation or any other valid chain is refused. |
| `CoreStore.RetryAfterFailedAppend` | internal/store/jsonl.go:251-278 | After a failed append in a session, a second intent leaves loadable files if and only if the first had not reached the stream, or had moved the head too and its line can be read. |
| `CoreStore.SettledLoads` | internal/store/jsonl.go:304-350 | Settled files load exactly when the records below the last are a chain and every line can be read. |
| `CoreStore.Run` | internal/store/jsonl.go:65-350 | Over every run of loads, appends and sessions, each cut at any step: the log only grows, every load returns a stage of it, acknowledged records stay at their sequence, and nothing else enters it. The run ends loadable if and only if every line fits, and from an over-long one on nothing is read or acknowledged. |
| `HostStore.Store.ReadChain` | internal/host/store.go:118-155 | Returns the record files exactly when they are one valid numbered chain. |
| `HostStore.Store.RecoverPending` | internal/host/store.go:164-181 | Finishes or forgets an interrupted commit. |
| `HostStore.Store.LoadLocked` | internal/host/store.go:183-199 | Succeeds exactly when the files stand for a log, and returns it; interrupted, they still do. |
| `HostStore.Store.CommitLocked` | internal/host/store.go:291-335 | Files the record as the next of the chain or leaves a state of an interrupted commit. |
| `HostStore.Transaction.Commit` | internal/host/store.go:263-288 | One commit a transaction: a second is refused and touches nothing. |
| `HostStore.CutShortLoads` | internal/host/store.go:291-335 | Each state an interrupted commit can leave loads, as the old log or the new. |
| `HostStore.OnlyTheAnchoredChain` | internal/host/store.go:183-199 | Removing record files or swapping in another valid chain is refused. |
| `HostStore.Run` | internal/host/store.go:164-335 | Over every run of loads and transactions, each cut at any step: the log only grows, every load returns a stage of it, acknowledged records stay at their sequence, and nothing else enters it. |
| `HostStore.RefinesSameLog` | internal/host/store.go:118-199 | The record files stand for a log exactly when the core store's form of the same head, intent and records does. |
| `PathLookup.LookupDirs` | internal/host/store.go:396-435 | The loop terminates and computes the walk: each link uses a hop, and between links each step uses a component. |
| `PathLookup.ResolvedIsReal` | internal/host/store.go:396-435 | What a path resolves to holds no link. |
| `PathLookup.OnlyDirsMatter` | internal/host/store.go:393-412 | While nothing changes in the returned directories, the path resolves to the same place through the same directories. |
| `PathLookup.RealResolvesToItself` | internal/host/store.go:396-435 | Resolving a link-free path gives it back and visits exactly its proper ancestors. |
| `PathLookup.DotsMean` | internal/host/store.go:396-435 | After a real path an empty component or "." names it again and ".." names its parent, the root being its own. |
| `PathLookup.LinkMeansTarget` | internal/host/store.go:396-435 | A name that is absent fails; a link stands for its target, from the root or from its directory, for one of the 40 hops. |
| `StageProjection.ProjectStageState` | internal/engine/stage_state.go:62-114 | The one-pass replay computes stage, outcome, criteria, evidence, nonces and the failure of highest precedence of the chain. |
| `StageProjection.StageIsLast` | internal/engine/stage_state.go:81-84 | The run is at the stage the last moving record names, or at GROUNDING. |
| `StageProjection.OutcomeIsLast` | internal/engine/stage_state.go:85-88 | Its outcome is that of the last record that ends it, or none. |
| `StageProjection.CriteriaAreLast` | internal/engine/stage_state.go:62-114 | The criteria are the last list recorded that is not empty. |
| `StageProjection.EvidenceIsRecorded` | internal/engine/stage_state.go:62-114 | The evidence is what was recorded, and nothing else. |
| `StageProjection.NoncesAreCarried` | internal/engine/stage_state.go:89-97 | A nonce is used if and only if some approval, waiver operation or override on record carries it. |
| `StageProjection.HighestLive` | internal/engine/stage_state.go:105-113 | The live classification of highest precedence: BLOCKED, UNKNOWN, FAILED. |
| `Transitions.LegalProposals` | internal/engine/transitions.go:139-205 | A proposal is legal if and only if it names one target: a stage along a legal edge, or an outcome, a verified one only from the closing stage. |
| `Transitions.RequiredEvidenceReason` | internal/engine/stage_state.go:152-184 | The first declared digest that is empty, missing or stale decides. |
| `Transitions.EvidenceLegal` | internal/engine/stage_state.go:152-184 | Evidence suffices if and only if every declared digest is present at the revisions the approval binds. |
| `Transitions.EvaluateStageTransition` | internal/engine/stage_state.go:191-276 | The branch cascade with its criteria loop computes the verdict that the results on reachable logs rest on. |
| `Transitions.LegalExactly` | internal/engine/stage_state.go:191-276 | A stage transition is legal if and only if the run is open and where the approval says, the target is legal, the approval admissible, its evidence satisfied and its classification in order, whatever order they are asked in. |
| `StageMachine.ApplyMovesOrEnds` | internal/transition/apply.go:133-199 | A record Apply builds moves the run along a legal edge, or ends a run that has not ended for an earned outcome, or does neither. |
| `StageMachine.StepMovesOrEnds` | internal/transition/apply.go:133-199 | Of all writers, only such records change the stage or the outcome. |
| `StageMachine.ReachableIsChain` | internal/transition/apply.go:164-199 | Every reachable log is a valid hash chain. |
| `StageMachine.StagesAreALegalWalk` | internal/engine/stage_state.go:81-84 | In every reachable chain the stages are a walk of legal edges from GROUNDING. |
| `StageMachine.OutcomeIsAbsorbing` | internal/engine/stage_state.go:85-88 | After the first terminal outcome no stage changes, no outcome is recorded and none replaces it. |
| `StageMachine.OutcomeIsEarned` | internal/engine/stage_state.go:191-258 | A recorded failure equals the live one of highest precedence, PARTIAL has no live failure and criteria of both kinds, and no verified outcome is ever recorded. |
| `StageMachine.FailureIsWorst` | internal/engine/stage_state.go:98-113 | A run ends in a failure only when some unit's latest decision is that failure and none is more severe, and in PARTIAL only when no unit's is a failure. |
| `StageMachine.StepSpendsFresh` | internal/engine/stage_state.go:89-97 | Each step spends one fresh challenge nonce, or carries no human decision. |
| `StageMachine.NoncesAreSingleUse` | internal/engine/stage_state.go:89-97 | In every reachable chain no nonce occurs twice across approvals, waiver operations and finding overrides. |
| `StageMachine.LiveMeansLatest` | internal/engine/stage_state.go:68-76 | A unit's live classification is its latest, unless a later human decision about the unit superseded it. |
| `StageMachine.RunLive` | internal/engine/stage_state.go:68-76 | In a reachable log that is its latest classification with no waiver operation or override of the unit after it. |
| `Transitions.EdgesSkipNoGate` | internal/engine/transitions.go:66-94 | An edge goes back, or forward by one gate; only GROUNDING to PLANNING passes one by. |
| `Transitions.EdgesExactly` | internal/engine/transitions.go:66-145 | An edge goes to the next gate, back to GROUNDING or PLANNING, to route selection once work was authorized, to authorization from validation, or to the criteria from the closing stage. |
| `Transitions.AdmissibleApprovals` | internal/engine/approval_binding.go:41-70 | An approval is admissible if and only if it is complete, unspent, exactly the expected one, raised for this chain position and worktree, and recent. |
| `StageMachine.NoGateSkipped` | internal/engine/stage_state.go:81-84 | By the time a run is at a stage it has been at every gate between PLANNING and that stage. |
| `StageMachine.AcceptanceIffFirstMove` | internal/engine/transitions.go:139-145 | A walk from GROUNDING gets beyond acceptance with criteria accepted if and only if its first move is to accept them. |
| `StageMachine.RunAcceptsFirst` | internal/engine/stage_state.go:81-84 | The same of the stages of every reachable log. |
| `StageMachine.AcceptanceCanBeSkipped` | internal/engine/transitions.go:139-145 | There is a reachable log at PLANNING that never was at acceptance. |
| `StageMachine.ReachableIsLawful` | internal/transition/apply.go:133-199 | Every record of a reachable log is valid, sealed to its place, and moves, ends and spends lawfully, whoever wrote it. |
| `StageMachine.AppliedEffect` | internal/transition/apply.go:133-199 | An applied approval moves the run to its target stage, or ends it with its outcome, or makes its classification the unit's live one, and nothing else of these. |
| `StageMachine.EveryResolutionApplied` | internal/engine/resolution.go:204-264 | In every reachable log no grant waived a blocking finding or anything already waived, no operation ended what was not waived, and no override moved a blocking finding or one HMA raised. |
| `StageMachine.ApprovalNamesItsChain` | internal/engine/approval_binding.go:41-70 | One human decision is never admissible on two different chains of a run. |
| `CoreWriters.AcceptedOnItsBase` | internal/transition/apply.go:133-199 | An accepted append extends exactly the chain its record was built from. |
| `CoreWriters.EveryInterleaving` | internal/transition/apply.go:133-199 | Under every interleaving of writers that load without the lock, chains only grow, stay reachable, and every commit was evaluated against exactly the chain it extends. |
| `CoreWriters.OneWinner` | internal/store/jsonl.go:304-316 | Of two writers that read the same chain at most one is accepted. |
| `CoreWriters.Apply` | internal/transition/apply.go:71-211 | With others appending between its load and its append, a recorded transition is legal on the chain it landed on, and the run loads again if and only if its line fits. |
| `CoreWriters.Resolve` | cmd/hma/resolve.go:61-113 | The same for one human resolution, which was legal on the chain it landed on: `Resolving.LegalExactly` says when that is. |
| `CoreWriters.Pilot` | internal/pilot/run.go:103-137 | The same for an approval awaiting review, and the evidence lands directly after it. |
| `Resolution.OverrideInPlace` | internal/engine/resolution.go:81-90 | The array holds the findings with the override applied. |
| `Resolution.OverrideChangesFirst` | internal/engine/resolution.go:81-90 | Only the first finding with the id changes; with none, nothing does. |
| `Resolution.ProjectResolutionState` | internal/engine/resolution.go:39-94 | The replay computes criteria, findings, waivers and nonces of the chain, and leaves each record's findings slice with exactly the overrides made while it was current. |
| `Resolution.FindingsAreLast` | internal/engine/resolution.go:49-90 | The findings are the last list recorded, a snapshot's even when empty, until an override moves one. |
| `Resolution.WaiversExactly` | internal/engine/resolution.go:58-80 | A waiver is active if and only if some record activates it and none since ends it. |
| `Resolution.UnchangedIffUndisturbed` | internal/engine/resolution.go:49-90 | The records are as they were given if and only if each list recorded outside a snapshot still reads, when replaced, as recorded. |
| `Resolution.RewrittenIsChain` | internal/store/jsonl.go:321-329 | Written again with their old anchors, the records are a chain under that same condition only. |
| `Resolution.OverrideDisturbs` | internal/engine/resolution.go:49-90 | A finding recorded outside a snapshot and then overridden violates it. |
| `Resolution.ProjectAndAppend` | cmd/hma/reconcile.go:57-91 | A transaction that projects and then appends leaves a run that loads again if and only if that condition held and the new line can be read. |
| `Resolving.LegalExactly` | internal/engine/resolution.go:154-270 | A resolution is legal if and only if it is one operation or one override, bound to this chain position and to the live repository where it names them, with a fresh nonce, on a criterion, an unblocking finding or an artifact that is not waived yet, on a waiver that is active, or on a finding that neither blocks nor is HMA's own. |
| `Resolving.ResolutionEffect` | internal/engine/resolution.go:154-270 | A legal resolution activates one inactive scope, ends one active scope, or moves one existing finding that does not block, spends a fresh nonce, and changes nothing else. |
| `Resolving.NotTwice` | internal/engine/resolution.go:204-243 | The operation just filed is not legal again. |
| `Resolving.GrantEndRoundTrip` | internal/engine/resolution.go:204-243 | Granting and ending a scope, in either order, restores the active waivers. |
| `Resolving.BlockersOutlastResolution` | internal/engine/resolution.go:244-264 | However many resolutions are filed, no blocking finding changes and none appears. |
| `Leases.IssuerWaiversChanged` | internal/engine/lease.go:260-322 | Changed if and only if a bound digest is repeated, did not name a live grant, or its scope was touched after the issuer. |
| `Leases.LiveGrantsExactly` | internal/engine/lease.go:260-322 | A grant is live if and only if it was recorded and no record since touches its scope. |
| `Leases.WaiversUnchangedExactly` | internal/engine/lease.go:260-322 | What an approval bound is unchanged if and only if it lists each digest once and each names a live grant nothing has touched since. |
| `Leases.BoundContractDigest` | internal/engine/contract_binding.go:25-34 | The loop returns the bound digest; `Leases.BoundContractExactly` says which. |
| `Leases.BoundContractExactly` | internal/engine/contract_binding.go:25-34 | It is the digest on the acceptance that no later acceptance follows, and none if there is none. |
| `Leases.RouteApprovalFor` | internal/engine/lease.go:326-335 | The unit's latest approved move from route selection to implementation authorization. |
| `Leases.FindOffence` | internal/engine/lease.go:165-210 | The first later move that rewinds or leaves the authority, with the unit's own walk to a correction allowed. |
| `Leases.OffenceExactly` | internal/engine/lease.go:165-210 | Which approved moves end the authority, as one condition on target, unit and dependencies. |
| `Leases.RouteIsApproved` | internal/engine/lease.go:211-233 | The route check passes if and only if the unit's latest route approval at the issuer approved the selected route, within the unit's permissions, on the same plan and with no waiver it bound touched. |
| `Leases.DeriveLease` | internal/engine/lease.go:99-251 | Computes the derivation that the results below are about, for every combination of chain, documents, route, counters, policy and time. |
| `Leases.ActiveExactly` | internal/engine/lease.go:99-251 | A lease is active if and only if the latest issuer carries the documents, under the contract of the latest acceptance, nothing since touches it, and route, time, counters and policy fit, whatever order they are asked in. |
| `Leases.ActiveWithinContract` | internal/engine/lease.go:99-251 | An active lease keeps to the contract accepted last: its limits and permissions are within the contract's, its route is permitted, its policy is the contract's. |
| `Leases.ActivePlanCovers` | internal/model/contract.go:662-720 | Under an active lease every unit of the plan has permitted routes and advances only criteria of the contract, and every criterion is advanced by some unit. |
| `Leases.SameIdsExactly` | internal/engine/lease.go:99-149 | The contract's criteria are the chain's: each id once in both, and the same ids. |
| `Leases.ScansAgree` | internal/engine/lease.go:165-210 | After the issuer, the derivation's scan is clear and the run unended if and only if no record revokes. |
| `Leases.ActiveMeansUnrevoked` | internal/engine/revocation.go:33-72 | While a lease is active, the revocation scan for its unit and issuer returns its end unchanged. |
| `Leases.NoRevival` | internal/engine/lease.go:150-233 | Once a generation ended by rewind, departure, waiver change or outcome, a lease active on any extension is of a later generation. |
| `Leases.VoidPersists` | internal/engine/lease.go:150-233 | What voids a generation voids it in every extension of the chain. |
| `StageLeases.IssuerAuthorizes` | internal/engine/lease.go:78-82 | In a reachable chain a record issues a unit's lease if and only if it takes the run to IMPLEMENTATION_AUTHORIZATION for that unit. |
| `StageLeases.RouteApprovalAuthorizes` | internal/engine/lease.go:326-335 | It approves the unit's route if and only if it takes the run there from ROUTE_SELECTION. |
| `StageLeases.AcceptanceAdvances` | internal/engine/contract_binding.go:25-34 | It binds a contract if and only if it takes the run from the criteria to PLANNING. |
| `StageLeases.BoundRunAccepted` | internal/engine/contract_binding.go:25-34 | A reachable run has an acceptance on record if and only if it once left the criteria for PLANNING. |
| `Revocation.ScanEnd` | internal/engine/revocation.go:33-72 | The loop lowers the end exactly as the recursive definition does. |
| `Revocation.RevokedAt` | internal/engine/revocation.go:20-22 | The same over the plan's dependency closure. |
| `Revocation.RevokedReviewAt` | internal/engine/revocation.go:29-31 | The same for a review dispatch. |
| `Revocation.RevokesExactly` | internal/engine/revocation.go:33-72 | Which later records end a generation, for launches and for reviews, as one condition on outcome, target, unit and dependencies. |
| `Revocation.EventTimeExactly` | internal/engine/revocation.go:74-85 | An event counts from its own time or its approval's, whichever is earlier, and from the zero time when its own cannot be read. |
| `Revocation.EndIsEarliest` | internal/engine/revocation.go:33-72 | The end is the minimum of the original and the times of the applicable events. |
| `Revocation.RecordOrderIrrelevant` | internal/engine/revocation.go:33-72 | It does not depend on the order or repetition of records. |
| `Revocation.EndOnlyFalls` | internal/engine/revocation.go:33-72 | More records, or an earlier issuer, only lower it. |
| `HostModel.PolicyRevokedAt` | internal/host/reconcile.go:428-453 | The loop computes the recursive definition. |
| `HostModel.PolicyEndIsEarliest` | internal/host/reconcile.go:428-453 | It is the earliest applicable observation, and there is one exactly when some observation applies. |
| `HostModel.ObservedExactly` | internal/host/reconcile.go:393-453 | An observation applies to a generation unless it was filed before its approval, to all if its place is unknown, and counts from its own time, or from the zero time if that or its place cannot be read. |
| `HostModel.FiledRevokes` | internal/host/reconcile.go:393-453 | A replacement filed at the core's head revokes the policy, from its time at the latest, for every generation issued so far. |
| `HostModel.ObservationOrderIrrelevant` | internal/host/reconcile.go:428-453 | It does not depend on the order or repetition of host records. |
| `HostModel.PolicyStaysRevoked` | internal/host/reconcile.go:428-453 | Revoked for a generation, it stays revoked however both logs grow. |
| `HostModel.PolicyEndOnlyFalls` | internal/host/reconcile.go:428-453 | Its time can only fall while every observation of the policy was made at a known core head. |
| `HostModel.PolicyEndFallsIffKnown` | internal/host/reconcile.go:440-448 | For dated observations that can all be placed later, it does not rise if and only if they can all be placed now. |
| `PolicyRuns.RevokedPolicyOnlyFalls` | cmd/hma/reconcile.go:94-111 | Over every run of hook and other steps, a revoked policy stays revoked and its time never moves later. |
| `HostModel.PolicyRevocationNeeded` | internal/host/reconcile.go:411-420 | Needed exactly when no observation applies to the latest generation. |
| `HostModel.RecordedOncePerGeneration` | internal/host/reconcile.go:411-420 | A change recorded at the core head is not needed again until a later approval issues. |
| `Reconciling.Index.constructor` | internal/host/reconcile.go:137-150 | The two maps answer, for every key, what a scan of the history answers. |
| `Reconciling.ValidityOf` | internal/host/reconcile.go:303-369 | The window of a matched record, or why there is none. |
| `Reconciling.ValidityExactly` | internal/host/reconcile.go:303-388 | A time is inside it if and only if it is in the record's own times, before the run's first outcome and the wall-time end for a review, before every revoking event and observation, with a policy presented that is the plan's or on record as replaced. |
| `Reconciling.PolicyBoundExactly` | internal/host/reconcile.go:374-388 | Bounding by policy keeps exactly the times before every applicable observation, and none unless a policy was presented that is the plan's or whose replacement is on record. |
| `Reconciling.Classify` | internal/host/reconcile.go:160-226 | The cascade gives each run its class. |
| `Reconciling.AuthorizedExactly` | internal/host/reconcile.go:160-226 | A run is authorized by a record if and only if it is readable, recent enough and named after its directory, that record alone carries its id, a packet's launch is the run's in every field or a reservation's route was checked for the unit and names its agent, model and effort, namespace and mode agree, and the record covers its start. |
| `Reconciling.LaunchExactly` | internal/host/reconcile.go:284-301 | A packet's launch has to be the run's in every field; a reservation's has to be the identity that some implementation preflight of the unit checked. |
| `Reconciling.PredatesExactly` | internal/host/reconcile.go:127-172 | A run is set aside as older if and only if it can be read and started before the first record of the core log. |
| `Reconciling.CheckJournal` | internal/host/reconcile.go:238-277 | The complaints about one journal: its admission, and each attempt without a reservation. |
| `Reconciling.JournalPasses` | internal/host/reconcile.go:238-277 | A journal passes if and only if it has exactly one admission, is bound to it, and each attempt was reserved for its unit and controller. |
| `Reconciling.JournalComplaintsExactly` | internal/host/reconcile.go:238-277 | Which complaints a journal gives: no single admission of its own, an admission that says otherwise, each attempt never reserved for it. |
| `Reconciling.ComplaintsExactly` | internal/host/reconcile.go:238-277 | A complaint is reported if and only if some journal on record gives it. |
| `Reconciling.UnlaunchedExactly` | internal/host/reconcile.go:227-234 | A dispatch id is reported as not launched if and only if a reservation with it authorized no run. |
| `Reconciling.Reconcile` | internal/host/reconcile.go:127-234 | Authorized, refused and unlaunched lists are exactly those of the verdicts, in ledger order, followed by the journals' complaints. |
| `Reconciling.EveryRunOnce` | internal/host/reconcile.go:166-227 | Every run's entry is in the list its verdict names, at the place the runs before it leave, and the lists hold nothing else. |
| `Reconciling.NoRecordTwice` | internal/host/reconcile.go:221-226 | No record authorizes two runs, whatever the ledgers hold. |
| `Reconciling.OneRunPerRecord` | internal/host/reconcile.go:180-226 | A record can only match one directory of one namespace. |
| `Reconciling.VerdictIsOwn` | internal/host/reconcile.go:221-226 | With distinct directories a verdict depends on its run alone and reuse is never reported. |
| `Reconciling.OrderIrrelevant` | internal/host/reconcile.go:157-159 | The order of the runs changes no verdict. |
| `Attempts.UnitCounters` | cmd/hma/attempt.go:523-532 | Attempts and cost summed over every generation of the unit. |
| `AttemptLaws.CountersAdd` | cmd/hma/attempt.go:523-532 | Each reservation of the unit counts once, wherever it stands. |
| `Attempts.AttemptRouteGrant` | cmd/hma/attempt.go:493-519 | The loop returns the route; `AttemptLaws.RouteExactly` says which. |
| `AttemptLaws.RouteExactly` | cmd/hma/attempt.go:493-519 | There is a route if and only if the unit's latest implementation preflight is available, expires later and names the worker, model and effort of both routes, and then it is that one's. |
| `Attempts.FindScan` | cmd/hma/attempt.go:283-301 | The first reservation with the key or a colliding one decides between replay and conflict. |
| `Attempts.ScanFinds` | cmd/hma/attempt.go:283-301 | No replay and no conflict if and only if no reservation shares a dispatch id or place with the request. |
| `AttemptLaws.ReplaysExactly` | cmd/hma/attempt.go:283-301 | A request is answered from the record if and only if the run exists, the request names its repository, and the first reservation it collides with was made for this very request. |
| `Attempts.ReplayResult` | cmd/hma/attempt.go:457-480 | The recorded reservation with whether it may still launch; `AttemptLaws.StillEligibleExactly` says when. |
| `AttemptLaws.StillEligibleExactly` | cmd/hma/attempt.go:457-480 | A reservation may still launch if and only if it is in its time, without a trace in the ledger, and backed by a usable latest preflight and by an authorizing approval of its own generation on an unrevoked policy. |
| `Attempts.RecordPolicyChange` | cmd/hma/attempt.go:439-451 | Files the observed change exactly when the presented policy differs and none applies to the latest generation. |
| `AttemptLaws.PolicyChangeExactly` | cmd/hma/attempt.go:439-451 | A change is filed if and only if another policy than the plan's was presented and no observation on record applies to the latest generation. |
| `Attempts.AttemptOnce` | cmd/hma/attempt.go:264-433 | One step under both locks files at most one record, the one its decision names, and answers as decided, whichever file operation of the commit fails. |
| `AttemptLaws.AdmitsExactly` | cmd/hma/attempt.go:302-372 | The hook admits if and only if the request is open, a usable latest preflight and an authorizing approval back it, there is no admission yet, and the envelope fits what the generation has left. |
| `AttemptLaws.ChargesExactly` | cmd/hma/attempt.go:302-418 | It charges if and only if, backed in the same way, the admission is of this generation and envelope, the failure is new, the rounded cost is left, and there is time. |
| `AttemptLaws.RouteMismatchExactly` | cmd/hma/attempt.go:493-519 | An open request is refused for its route if and only if no preflight is usable. |
| `AttemptLaws.FreshGrantExactly` | cmd/hma/attempt.go:381-433 | A fresh grant files one reservation, and may launch if and only if the second look finds no trace in the ledger and a clock before the lease's end and the preflight's. |
| `HookRuns.ChargeGrounds` | cmd/hma/attempt.go:381-418 | A charge copies its generation from the approval, stays within its budgets, and shares nothing with earlier reservations. |
| `HookRuns.RunKeeps` | cmd/hma/attempt.go:264-433 | Over every run of hook steps and of anything else that grows the logs, every reservation stays grounded in the approval, plan, admission and preflight it came from. |
| `HookResults.ChargesStayWithinBudgets` | cmd/hma/attempt.go:381-404 | At every point of every run each charge left its unit's total within its generation's budgets, and reservations are pairwise apart in dispatch id, controller place and failure signature. |
| `HookResults.RepeatReturnsTheReservation` | cmd/hma/attempt.go:283-297 | Repeating a charged request returns the same reservation or a refusal, and never charges again. |
| `HookResults.LiveReservationAuthorizes` | internal/host/reconcile.go:178-226 | A launch a reservation covers, while its lease is active, is authorized by that record if and only if no review packet carries its dispatch id. |
| `HookResults.GrantedLaunchIsAuthorized` | cmd/hma/attempt.go:264-433 | Over whole runs, a granted launch, fresh or replayed, that starts as granted is authorized by reconciliation on the logs, plans and policy the hook left, if and only if no review packet carries its dispatch id. |
| `HookResults.FreshGrantIsUnshadowed` | cmd/hma/attempt.go:302-306 | A fresh grant never meets such a packet. |
| `Shadowing.RepeatIsGranted` | cmd/hma/attempt.go:283-297 | A repeat of a charged request that is still eligible is granted again and changes nothing. |
| `Shadowing.PacketShadowsGrant` | internal/host/host.go:1012-1020 | Every run that ends in an eligible grant goes on, by one packet with its id and one repeat, to one that ends in the same grant with every launch it covers refused as ambiguous. |
| `HookWitness.SomeRunGrants` | cmd/hma/attempt.go:264-433 | There is a run from nothing to an eligible grant: approval, preflight, admission, charge. |
| `HookWitness.SomeGrantIsShadowed` | internal/host/host.go:1012-1020 | And one whose last step grants a launch that a packet shadows. |
| `HookResults.EndedGenerationNeverCharges` | cmd/hma/attempt.go:313-340 | Once a generation is voided by the chain or its policy revoked, no extension of the logs lets the hook admit or charge under it. |
| `HookResults.ChangeMeansNewGeneration` | cmd/hma/attempt.go:435-451 | The hook files a policy change only when an approval issued after every earlier observation of that policy. |

## Left out

- Git subprocesses, sandboxing, descriptor walks, environment filtering and real
  symlinks: foreign calls; path resolution is modelled over an abstract link map.
- fsync and flock: a file operation is atomic and the run lock is exclusive;
  step order and crash points are kept.
- Go's JSON decoding, and time parsing and formatting: records and times are
  taken as decoded.
- Floating point: the envelope's limits are reals, and only the rounding of a
  per-attempt cost up to a whole number is kept. Overflow of 64-bit counters is
  not modelled.
- `cmd/hmarun`, flag parsing, usage text, packet rendering, `show`, `eval`,
  `inventory` and the GitHub environment.
- Field-presence validators, route coherence, route policy normalisation and
  validator contracts: each clause is settled by reading one branch.
- `EvaluateContractBinding` and `AssignLegacyOwners`: short cascades that none of
  the results here rests on; a lease reads the bound contract digest only.
- `parseAttemptRequest` and `pendingFor`: the controller's state is a parameter
  of a hook step, with the field checks the results need.
- `InventoryDigest` and `Namespaces`: they summarise the input of a
  reconciliation and decide no verdict.
- HookResults.GrantedLaunchIsAuthorized: reconciliation is taken on the logs,
  plans and policy the hook left; a later core record may end the window, as the
  revocation results describe.
- CoreStore.Run: a session writes back the records it read; one that projected
  them first is `Resolution.ProjectAndAppend`, for a single append.
- HookWitness.SomeRunGrants: its core records are sealed into a chain, but not
  shown to be ones that the stage machine's writers file.
- CoreWriters.EveryInterleaving: criteria, findings and evidence records are
  taken in any content, so the result does not say which commands write them.
- LineIndexing.NewLineIndex: offsets are unbounded, since the observation window
  keeps them far below 32 bits.
- Reconciling.CheckJournal: admissions are counted by record, which is the same
  as counting them by anchor in a loaded history, where anchors differ.
- Attempts.AttemptOnce: the wait for the next whole second is the choice of the
  record's time; the clock afterwards is a parameter.
