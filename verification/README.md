# OpsCore control-plane models

Dafny models of the state machines at the heart of the OpsCore control plane, with
machine-checked proofs of what they promise. Each module follows one component of the Go
code: objects whose methods update fields are classes with the same branches, each
proved against a specification function on values; the laws are lemmas about those
functions, mostly over whole runs.

| files | component |
|---|---|
| `TransitionFile`, `TransitionRuns`, `DurablePaging`, `TransitionStore`, `AlertTracking` | durable alert-transition file, cursor paging, alert tracker |
| `ExecutionProtocol`, `ExecutionRunner` | asynchronous runner against any number of cancellers |
| `Intervals`, `Coverage` | cross-snapshot sequence coverage over checked int64 arithmetic |
| `TokenBucket`, `Semaphore`, `Breaker`, `Quota`, `Gate`, `GateRuns` | protection gate |
| `PolicyRepository`, `AuditLog`, `Management`, `ManagementRuns`, `Reconciler` | compare-and-swap policy store, audit log, mutation pipeline, reconciliation |
| `AppendOnlyLog`, `AnchorDelivery`, `AnchorRuns` | log compaction and anchor delivery sweep |
| `ObservationRing`, `Governance`, `Framing` | observation ring, rule evaluation, frame protocol |
| `Seqs`, `Text` | sequences and decimal text |

`dafny verify dfyconfig.toml` checks the whole project.

How the outside world enters: clock readings, generated ids, failing reads, writes,
syncs, closes and renames, audit appends, witness responses and evidence readings are
parameters, chosen freely per call, so every theorem holds for every choice of them. A
failed write leaves the file unchanged; publication by rename is one atomic replacement.
The interleaving of the runner with cancellers is a state machine over their atomic steps
(`ExecutionProtocol`); in the runner class every gap between two atomic actions calls
`Interfere`, of which only the contract is used: any events of theirs. A ghost trace ties
each of its actions to one of the state machine.
Token counts are `real` where the code has `float64`; interval endpoints are a checked
int64 type, so an overflow would not verify.

## Where the code differs from its documentation

The models follow the code. Each difference below is a lemma with the exact condition, or
with a concrete case.

- Torn tail: the file store skips an unterminated last line when reading but does not cut
  it off before appending; the next append is joined with it and the file reads as corrupt
  (`AppendBehindTornLineCorrupts`), and so it can when that line is blank
  (`AppendBehindTornBlankCorrupts`). A corrupt file accepts appends and stays corrupt
  (`CorruptFileAcceptsAppends`). `AppendIsReadableIff` is the exact condition.
- Watermark: a corrupt file reopens with its watermark at 0 and a migration restarts at
  N+1, so numbers can be issued again (`CorruptFileReissues`, `MixedFileReissues`);
  `NextSeqIsFreshIff` says exactly when not.
- Unknown drop count: eviction writes fresh metadata and forgets the "unknown" marker when
  the first line no longer parses as metadata (`EvictKeepsUnknownIff`,
  `EvictLaundersUnknown`).
- Half-open circuits are documented to admit exactly one probe; `probeAllowed` is never
  consulted and n evaluations let n callers through (`HalfOpenAdmitsEveryone`).
- The breaker's failure count is never reset, so recovery after a successful probe lasts
  only while fewer failures than the threshold were ever recorded (`RecoveryLastsIff`);
  under every configuration some run gets past that (`RecoveryCanFail`).
- `SetCap` has no effect on a capability that was ever acquired (`SetCapTakesEffectIff`).
- Coverage calls a window inside a hole between two snapshots complete
  (`WindowInsideAHole`); `PartitionIff` and `NoGapsMeans` give the exact condition.
- The degraded answer "WAS applied" is also given for replays and self-transitions, which
  store nothing (`DegradedClaim`, `AppliedClaimCanBeFalse`).
- The replay guard treats an unreadable trail as an empty one, and guard and reconciler
  read only four rows of a key: an outcome with four rows behind it is no longer seen. Four
  replays whose guard reads and outcome rows fail bring that about; the key is then open
  again and its settled intent no longer reads closed (`BuriedOutcomeIff`, `BuriedIntentIff`).
  `GuardStopsIff` and `ClosedIff` are exact on any log. Ids used once are not concerned
  (`OwnIdClosedAfterAnyRun`).
- A retry under a reused key makes an orphaned intent read closed
  (`ReusedKeyClosesAnOrphan`).
- A scan-history cap of 0 loses scans without raising the truncation flag
  (`ZeroCapForgetsSilently`); `StaysHonestIff` and `RingIsHonestIff` give the exact
  condition.
- Anchor compaction is documented never to evict an unconfirmed group; its guard looks at
  the lowest sequence number only (`GuardMissesTheSecond`). The promise is kept exactly
  when all groups to be evicted are confirmed (`NeverEvictsUnconfirmedIff`,
  `AppendKeepsUnconfirmedIff`), which being at most one group over implies
  (`OneOverIsSafe`).
- Compaction is documented to copy survivors verbatim; it trims them, which is the same
  exactly when no surviving line carries surrounding white space
  (`SurvivorsAreVerbatimIff`).
- The documented total order on rules does not separate two rules of one id and priority
  (`OrderNeverMattersIff`, `DuplicateIdsDependOnOrder`).
- A Cancel that arrives before the run has registered is lost (`CancelIsLostIff`);
  `CancelIsHonouredIff` says exactly when one is bound to end the record Cancelled.

## Model

| member | source | states |
|---|---|---|
| `TransitionFile.ScanOfEncode` | internal/controlplane/server/file_transition_store.go:330-421 | scanning what the store writes gives back every record and the metadata, never corrupt |
| `TransitionFile.MigrationIsComplete` | internal/controlplane/server/file_transition_store.go:234-285 | migration publishes the same transitions in order with numbers 1..N, carries the "unknown" marker over, leaves nothing legacy, and is idempotent |
| `TransitionFile.FailedMigrationDegrades` | internal/controlplane/server/file_transition_store.go:192-208 | a failed migration leaves the file untouched and the store degraded: loads report an error and appends are refused |
| `TransitionFile.LoadTells` | internal/controlplane/server/file_transition_store.go:424-444 | a load hands over exactly the readable records with the drop count and marker of the metadata line, none of it known without that line, and nothing when the file is corrupt or was not opened |
| `TransitionFile.MirrorCountsLines` | internal/controlplane/server/file_transition_store.go:400-421 | after a read the counter is the number of transition lines, on a corrupt file too, as long as no line is torn |
| `TransitionFile.ScannedAreReadable` | internal/controlplane/server/file_transition_store.go:330-421 | a scan that is not corrupt returns exactly the readable records of the file, in order |
| `TransitionFile.NextSeqIsFreshIff` | internal/controlplane/server/file_transition_store.go:152-225 | after opening any file, the next number is above everything the file shows if and only if the file was not corrupt, or not legacy with high numbers: the exact condition under which numbers are reissued |
| `TransitionFile.CorruptFileReissues` | internal/controlplane/server/file_transition_store.go:185-191 | a file with one unreadable line in front of its records reopens at number 1, below all of them |
| `TransitionFile.MixedFileReissues` | internal/controlplane/server/file_transition_store.go:234-285 | a legacy record behind record n reopens at number 3, not above n |
| `TransitionFile.AppendIsReadableIff` | internal/controlplane/server/file_transition_store.go:453-516 | a durable append can be read back, by the scan every reader uses, if and only if the lines before it are readable with a torn last line counted among them, and that line, if torn, is blank; the file it leaves is corrupt exactly when those lines were, or when it joined leftover text behind another line |
| `TransitionFile.CorruptFileAcceptsAppends` | internal/controlplane/server/file_transition_store.go:185-191 | a store opened on a corrupt file answers success to an append, and the file stays corrupt |
| `TransitionFile.AppendBehindTornBlankCorrupts` | internal/controlplane/server/file_transition_store.go:400-411 | a file whose last line is torn and blank can be readable before an append and corrupt after it |
| `TransitionFile.AppendBehindTornLineCorrupts` | internal/controlplane/server/file_transition_store.go:400-405 | a file readable only thanks to the torn-tail rule becomes corrupt with the next append |
| `TransitionFile.AnsweredFailureIff` | internal/controlplane/server/file_transition_store.go:453-516 | an append that answers failure has stored its record if and only if the write worked and the close, or an eviction that was due, failed; success means it is stored |
| `TransitionFile.EvictCuts` | internal/controlplane/server/file_transition_store.go:521-584 | an eviction on any file keeps the newest lines as they are and adds the number cut to both counts, in the file starting from zero when the count was unknown |
| `TransitionFile.EvictKeepsUnknownIff` | internal/controlplane/server/file_transition_store.go:521-584 | an eviction keeps the "drop count unknown" verdict if and only if the first line still parses as metadata |
| `TransitionFile.EvictLaundersUnknown` | internal/controlplane/server/file_transition_store.go:521-584 | a full file with unreadable metadata turns, by one ordinary append, from "unknown" into a clean count of 2 |
| `TransitionFile.MaxSeqIsMax` | internal/controlplane/server/file_transition_store.go:207-222 | the recovered watermark is the maximum of the metadata and the retained numbers |
| `TransitionRuns.ReopenIsIdentity` | internal/controlplane/server/file_transition_store.go:152-225 | reopening the file of a clean store gives the store back, counters and watermark included |
| `TransitionRuns.AppendRefines` | internal/controlplane/server/file_transition_store.go:453-516 | Append over the file and three counters is one step on (metadata, records): add, then keep the newest 10000 |
| `TransitionRuns.EvictRefines` | internal/controlplane/server/file_transition_store.go:521-584 | eviction drops exactly the oldest excess records and counts them |
| `TransitionRuns.StepAccounts` | internal/controlplane/server/file_transition_store.go:453-584 | one event keeps a clean store clean, with retained = suffix of everything written and dropped + retained = everything written |
| `TransitionRuns.RunRetainsSuffix` | internal/controlplane/server/file_transition_store.go:207-222 | over any run of appends, failures, evictions, reads and reopens: retained records are a suffix of all ever written, file_dropped counts the rest, and issued numbers are lastSeq+1, lastSeq+2, ... with none repeated |
| `TransitionRuns.AppendRestoresTheCap` | internal/controlplane/server/file_transition_store.go:521-584 | an append whose eviction works restores the cap whatever evictions failed before |
| `TransitionRuns.CloseFailureConsumesItsSeq` | internal/controlplane/server/file_transition_store.go:453-516 | a close that fails after the sync is reported as an error, yet the record stays and its number is spent |
| `TransitionRuns.NewFileIsClean` | internal/controlplane/server/file_transition_store.go:152-225 | a new file opens as a clean, empty store |
| `TransitionRuns.LegacyOpensCleanIff` | internal/controlplane/server/file_transition_store.go:192-222 | a readable file with legacy records is migrated and opens clean, the start of all run results, if and only if its drop count is known |
| `TransitionRuns.OpensCleanIff` | internal/controlplane/server/file_transition_store.go:152-225 | exactly three kinds of file open clean: the empty one, a readable legacy one with a known drop count, and one as the store writes it with rising numbers |
| `TransitionRuns.RunConcat` | internal/controlplane/server/file_transition_store.go:453-584 | runs compose: what is issued over two stretches is issued over their concatenation |
| `TransitionStore.FileBackedTransitionStore.constructor` | internal/controlplane/server/file_transition_store.go:152-225 | opening an existing file, with its corrupt, legacy and failed-migration branches, is Open |
| `TransitionStore.FileBackedTransitionStore.ScanRecords` | internal/controlplane/server/file_transition_store.go:330-421 | the scanning loops compute Scan and refresh the counters |
| `TransitionStore.FileBackedTransitionStore.MigrateLocked` | internal/controlplane/server/file_transition_store.go:234-285 | migration is one atomic replacement by Migrated |
| `TransitionStore.FileBackedTransitionStore.EvictLocked` | internal/controlplane/server/file_transition_store.go:521-584 | eviction is Evict, all or nothing |
| `TransitionStore.FileBackedTransitionStore.Append` | internal/controlplane/server/file_transition_store.go:453-516 | Append is the step Append and succeeds exactly as AppendOk says |
| `TransitionStore.FileBackedTransitionStore.Load` | internal/controlplane/server/file_transition_store.go:424-444 | Load hands over what Load says and reports corruption as such |
| `TransitionStore.FileBackedTransitionStore.ReadBefore` | internal/controlplane/server/file_transition_store.go:850-936 | the page read is DurablePaging.ReadBefore and the durable state is at most refreshed |
| `DurablePaging.CursorRoundTrip` | internal/controlplane/server/file_transition_store.go:648-670 | a minted cursor parses back to its sequence number, for every positive int64 |
| `DurablePaging.CursorMeans` | internal/controlplane/server/file_transition_store.go:648-670 | a token is a position if and only if it is the prefix followed by a positive number; every other is an invalid cursor |
| `DurablePaging.Resolve` | internal/controlplane/server/file_transition_store.go:679-686 | resolution finds a record with the number, or proves there is none |
| `DurablePaging.AnswerMeans` | internal/controlplane/server/file_transition_store.go:850-936 | which answer a request gets: an invalid cursor, a failed read, corruption and an expired position are told apart in that order, and a page repeats the metadata and has a next cursor exactly when there is more |
| `DurablePaging.ReadBeforeInHistory` | internal/controlplane/server/file_transition_store.go:850-936 | a page read behind a cursor is an exact stretch of the write history; it expires exactly when the cursor record was evicted |
| `DurablePaging.FirstPageInHistory` | internal/controlplane/server/file_transition_store.go:850-936 | the page read without a cursor is the newest stretch of the write history |
| `DurablePaging.WalkDelivers` | internal/controlplane/server/file_transition_store.go:850-936 | following a cursor with any appends, evictions, reopens and failed reads between pages delivers a gap-free, repetition-free stretch and ends only when nothing older is retained |
| `DurablePaging.WholeWalkDelivers` | internal/controlplane/server/file_transition_store.go:850-936 | the same from the empty cursor: the pages are the newest records of the history as it was at the first page, each exactly once |
| `DurablePaging.DeliveredFalls` | internal/controlplane/server/file_transition_store.go:850-936 | the delivered stretch has strictly falling sequence numbers |
| `AlertTracking.AlertTracker.constructor` | internal/protection/alerting.go:298-327 | construction replays the store: newest 256 transitions, firing flag from the last one, error and corrupt states kept apart |
| `AlertTracking.AlertTracker.Observe` | internal/protection/alerting.go:336-372 | an observation is AfterObserve, and exactly the edge it makes is appended to a loaded store |
| `AlertTracking.AlertTracker.RecordEdge` | internal/protection/alerting.go:378-401 | an edge enters the ring first and then the store |
| `AlertTracking.AlertTracker.Transitions` | internal/protection/alerting.go:413-421 | a newest-first copy of the ring |
| `AlertTracking.ComputeAlertCondition` | internal/protection/alerting.go:47-55 | fires exactly when a positive threshold is reached by the missing-evidence rejections |
| `AlertTracking.AlertIsMonotone` | internal/protection/alerting.go:47-55 | more missing evidence never silences the alert, a higher threshold never raises it, a non-positive one switches it off |
| `AlertTracking.EdgesAreChained` | internal/protection/alerting.go:336-372 | edges alternate, each From is the previous To, and the last To is the observed signal |
| `AlertTracking.RunKeepsInStep` | internal/protection/alerting.go:298-401 | over any run with durable writes tracker and store tell one history: ring = its newest 256, store = a suffix, firing = its last To |
| `AlertTracking.BaselineRun` | internal/protection/alerting.go:336-372 | after a failed or corrupt load the first observation sets flag and time, records no edge and writes nothing; from there on ring, loss count, "since" and store are exactly what the edges of the signal make of them, and the load verdict stays |
| `AlertTracking.LoadedRun` | internal/protection/alerting.go:336-401 | the same from a loaded tracker, over any run and any store failures, with no transition lost from the ring uncounted |
| `AlertTracking.UnreadableStoreTakesBaseline` | internal/protection/alerting.go:298-327 | a store that was not opened or is corrupt gives such a tracker: not firing, empty, and saying which of the two it was |
| `AlertTracking.InMemoryIsTheSame` | internal/protection/alerting.go:298-327 | without a store a tracker observes as it does with a loaded one |
| `AlertTracking.PersistedEdges` | internal/protection/alerting.go:336-401 | from a healthy empty store, the persisted transitions are exactly the edges of the observed firing sequence, up to the store's own capacity |
| `AlertTracking.RebuildAgrees` | internal/protection/alerting.go:298-327 | a tracker rebuilt from the store has the same firing flag and the same ring |
| `AlertTracking.SinceIsTheNewestEdge` | internal/protection/alerting.go:336-372 | over any run of a tracker past its baseline, with any store failures, "since" is the time of the newest edge if that raised the alert, zero if it cleared it, and unchanged when there was no edge |
| `AlertTracking.RestartKeepsSinceIff` | internal/protection/alerting.go:298-372 | after any run, a restart keeps the "since" time if and only if the alert is not firing, or the run began without a "since" and saw no edge, as after an earlier restart while firing |
| `AlertTracking.RestartFromKnownIff` | internal/protection/alerting.go:298-372 | from a tracker that is firing exactly when it has a "since", every run keeps that so, and a restart keeps "since" if and only if the alert is not firing |
| `AlertTracking.FailedWriteRebuildIff` | internal/protection/alerting.go:378-401 | after a failed write the rebuilt flag is right if and only if the observation recorded no edge |
| `ExecutionProtocol.EveryInterleaving` | internal/core/executor.go:89-230 | in every interleaving of one run with any number of cancellers: status moves only along the admitted edges, terminal states never change, executed steps are a prefix of the plan, and a stored Success means every step ran and succeeded |
| `ExecutionProtocol.RunKeepsInv` | internal/core/executor.go:89-230 | every runner and canceller step keeps the joint invariant of record, registry and program counter |
| `ExecutionProtocol.FlipNeverConflicts` | internal/core/service.go:84-112 | the conflict branch of Planning to Running is dead: no Cancel moves a record that is still Planning |
| `ExecutionProtocol.RunnerFinishes` | internal/core/executor.go:89-230 | 4n+7 runner actions settle the record in a terminal status, whatever the cancellers do |
| `ExecutionProtocol.CancelIsLostIff` | internal/core/service.go:117-128 | a Cancel leaves no trace if and only if the record is not Running and the run is not registered or already signalled |
| `ExecutionProtocol.CancelIsHonouredIff` | internal/core/service.go:117-128 | at every point of every interleaving, a Cancel is bound to end the record Cancelled if and only if it is Running, CancelRequested or Cancelled, or is Planning with a non-empty plan and registered or already signalled |
| `ExecutionProtocol.EarlyCancelIsLost` | internal/core/runtime.go:30-53 | for a plan of any length, a Cancel before the goroutine registers changes nothing and the undisturbed run ends in Success |
| `ExecutionProtocol.SignalledRunIsCancelled` | internal/core/executor.go:193-230 | a signalled run that still has a context check ahead ends Cancelled in every interleaving |
| `ExecutionProtocol.SignalBeforeStartIff` | internal/core/executor.go:89-190 | a run signalled before its first step always ends Cancelled if and only if its plan is not empty |
| `ExecutionRunner.EnvCoversCancellers` | internal/core/service.go:117-128 | the environment the runner methods assume covers every run of cancellers of the protocol |
| `ExecutionRunner.RowsArePrefix` | internal/core/executor.go:89-190 | with distinct step ids the stored rows are the executed prefix of the plan |
| `ExecutionRunner.Execution.Transition` | internal/core/service.go:84-112 | the atomic compare-and-set |
| `ExecutionRunner.Execution.UpdateStep` | internal/core/executor.go:150-170 | upsert of a step row by id |
| `ExecutionRunner.Execution.FinishRecordStatus` | internal/core/executor.go:222-230 | Running settles to exactly the given status, CancelRequested to Cancelled |
| `ExecutionRunner.Execution.FinishRecord` | internal/core/executor.go:209-215 | the record ends Success or Failed by the result, unless a Cancel was first |
| `ExecutionRunner.Execution.CancelRun` | internal/core/executor.go:192-206 | a cancelled run ends Cancelled |
| `ExecutionRunner.Execution.ExecuteStep` | internal/core/executor.go:139-170 | one step is executed and its row stored, with others acting in between |
| `ExecutionRunner.Execution.RunBody` | internal/core/executor.go:89-190 | every run of the step loop is a run of the protocol's runner; the record ends Cancelled if the run saw the signal or was asked to cancel, and otherwise Success exactly when every step succeeded, else Failed |
| `ExecutionRunner.Execution.Launch` | internal/core/service.go:84-98 | registered first, and the flip succeeds exactly on a record that is still Planning |
| `ExecutionRunner.Execution.RunAsync` | internal/core/service.go:84-112 | register, flip, run, unregister: a run of the protocol to its end, with the same exact outcome; a record that left Planning is not touched |
| `Intervals.NormalFormIsUnique` | internal/controlplane/server/history_export_coverage.go:370-395 | two sorted, pairwise non-adjacent interval lists with the same union are equal |
| `Intervals.MergeIntervals` | internal/controlplane/server/history_export_coverage.go:370-403 | the merge returns the normal form of the union, without int64 overflow up to the largest value |
| `Intervals.MergeStepKeeps` | internal/controlplane/server/history_export_coverage.go:382-392 | one round of the merge loop keeps the normal form and adds exactly one interval to the union |
| `Intervals.MergeClipCommute` | internal/controlplane/server/history_export_coverage.go:223-230 | clipping and then merging, as the code does, gives what clipping the merged list gives |
| `Intervals.ClipCovers` | internal/controlplane/server/history_export_coverage.go:223-229 | clipping keeps exactly the points of the window |
| `Coverage.GapsWithin` | internal/controlplane/server/history_export_coverage.go:262-278 | the gap loop returns exactly the uncovered points of the span, without overflow at the largest value |
| `Coverage.PublicationGaps` | internal/controlplane/server/history_export_coverage.go:408-434 | the reported holes are exactly the positive ids that were not seen between two that were |
| `Coverage.SortedUnique` | internal/controlplane/server/history_export_coverage.go:413-424 | duplicates and non-positive ids collapse away |
| `Coverage.Classify` | internal/controlplane/server/history_export_coverage.go:136-173 | the pass over the manifests collects usable ranges, their extent, unusable entries, ids, uncertainty and truncation |
| `Coverage.ConsideredAreTheNewest` | internal/controlplane/server/history_export_coverage.go:99-115 | the considered snapshots are the newest, at most as many as asked for and never over 100, ten by default; fewer only when there are no more |
| `Coverage.ClipToWindow` | internal/controlplane/server/history_export_coverage.go:223-245 | the clip loop and the span of what it leaves |
| `Coverage.OutOfScopeOfExtent` | internal/controlplane/server/history_export_coverage.go:247-257 | out of scope is exactly the window beyond the observed extent |
| `Coverage.Coverage` | internal/controlplane/server/history_export_coverage.go:99-303 | the whole analysis: limit, window defaults, the two early verdicts, for every point whether it is covered, a gap or out of scope, and the verdict in terms of the manifests' own fields |
| `Coverage.VerdictIsMeant` | internal/controlplane/server/history_export_coverage.go:284-302 | complete if and only if some range is usable, the window is one, no considered manifest may hide part of it, there is no gap and no usable manifest is truncated; gaps present if and only if the first three hold and there is a gap |
| `Coverage.RelevantIff` | internal/controlplane/server/history_export_coverage.go:357-366 | a manifest keeps the verdict open if and only if it is unreadable, gives no range, or gives a reversed one whose envelope meets the window |
| `Coverage.UsableIsDeclared` | internal/controlplane/server/history_export_coverage.go:136-173 | the usable intervals cover exactly what well-formed, non-empty manifests declare, and every snapshot is used or listed as unusable |
| `Coverage.EntriesSayWhy` | internal/controlplane/server/history_export_coverage.go:305-335 | each unusable entry names the first defect of its manifest, and its publication id whenever it could be read |
| `Coverage.NoOverlap` | internal/controlplane/server/history_export_coverage.go:221-278 | covered, gaps and out of scope are pairwise disjoint |
| `Coverage.CoveredAndGapsAreTheHull` | internal/controlplane/server/history_export_coverage.go:234-278 | covered and gaps together are exactly the hull of the clipped usable intervals |
| `Coverage.PartitionIff` | internal/controlplane/server/history_export_coverage.go:232-257 | the three lists account for the whole window if and only if the ends of extent ∩ window are covered |
| `Coverage.NoGapsMeans` | internal/controlplane/server/history_export_coverage.go:284-301 | a report without gaps vouches for all of extent ∩ window if and only if the same edges are covered |
| `Coverage.CompleteOverTheExtent` | internal/controlplane/server/history_export_coverage.go:284-301 | for a window containing the extent the lists partition it, and the verdict is complete if and only if every seq of the extent is covered and nothing is truncated or uncertain |
| `Coverage.WindowInsideAHole` | internal/controlplane/server/history_export_coverage.go:234-301 | a window inside a hole between two snapshots is reported complete with nothing covered and no gap |
| `TokenBucket.Normalized` | internal/protection/tokenbucket.go:35-50 | a bucket set always has positive capacity and refill |
| `TokenBucket.TokenBucketSet.Take` | internal/protection/tokenbucket.go:63-94 | a take refills, consumes one token or none, and touches one key |
| `TokenBucket.PairsHaveTheirOwnBucket` | internal/protection/tokenbucket.go:63-79 | pairs with hexadecimal hashes never share a bucket |
| `TokenBucket.RateBound` | internal/protection/tokenbucket.go:63-94 | over any run of calls on any keys, one key is granted at most capacity + refill * d within a stretch whose readings span d seconds, clock jumps included |
| `TokenBucket.TakeSpendsAllowance` | internal/protection/tokenbucket.go:83-94 | tokens stay within [0, capacity], and a grant comes out of the allowance |
| `TokenBucket.BackwardClockAddsNothing` | internal/protection/tokenbucket.go:83-94 | a reading at or before the last one adds no token |
| `TokenBucket.GrantedIff` | internal/protection/tokenbucket.go:83-94 | exactly when a call is granted, told from the level and the time since |
| `TokenBucket.WaitingIsRewarded` | internal/protection/tokenbucket.go:83-94 | waiting 1/refill seconds after any call is enough to be served |
| `Semaphore.SemaphoreSet.Acquire` | internal/protection/semaphore.go:50-64 | a slot is taken without blocking; the channel is made on first use with the cap then in force |
| `Semaphore.SemaphoreSet.Release` | internal/protection/semaphore.go:68-78 | a slot is returned, and releasing nothing changes nothing |
| `Semaphore.SemaphoreSet.SetCap` | internal/protection/semaphore.go:28-35 | the configured cap changes, non-positive meaning the default |
| `Semaphore.AcquireThenRelease` | internal/protection/semaphore.go:50-78 | acquire fails exactly when full; acquire and release cancel out for every capability |
| `Semaphore.FirstAcquireFixesTheBound` | internal/protection/semaphore.go:50-64 | over any run the bound of a used capability never changes |
| `Semaphore.SetCapTakesEffectIff` | internal/protection/semaphore.go:28-64 | a cap change takes effect if and only if the capability was never acquired |
| `Breaker.BreakerSet.Evaluate` | internal/protection/breaker.go:117-163 | evaluation and its state change, branch by branch |
| `Breaker.BreakerSet.RecordOutcome` | internal/protection/breaker.go:168-184 | an outcome counts failures and settles a half-open circuit |
| `Breaker.ClosedTable` | internal/protection/breaker.go:117-163 | the decision table of a closed circuit, in both directions |
| `Breaker.OpenUntilCooldown` | internal/protection/breaker.go:122-129 | an open circuit stays open through any evaluations before openedAt + cooldown and any late outcomes |
| `Breaker.FailedProbeStartsACooldown` | internal/protection/breaker.go:165-184 | a probe that fails keeps the circuit open for a full cooldown from the failure, whatever happens meanwhile |
| `Breaker.ProbeFlagIsHalfOpen` | internal/protection/breaker.go:117-184 | over any run the single-probe flag is up exactly while the circuit is half-open |
| `Breaker.HalfOpenAdmitsEveryone` | internal/protection/breaker.go:122-132 | from half-open or the end of the cooldown, n evaluations before an outcome let n callers through, so at most one probe passes if and only if there is at most one evaluation |
| `Breaker.FailuresAreNeverForgotten` | internal/protection/breaker.go:168-184 | the failure count is every failure ever recorded |
| `Breaker.RecoveryLastsIff` | internal/protection/breaker.go:117-184 | after a successful probe the circuit survives the next clean evaluation if and only if fewer failures than the threshold were ever recorded |
| `Breaker.RecoveryCanFail` | internal/protection/breaker.go:117-184 | under every configuration a fresh circuit can be brought to half-open with as many failures as the threshold; its probe then succeeds and the next clean evaluation opens it again |
| `Quota.QuotaStore.GetDefinition` | internal/protection/quota.go:84-94 | own definition, else the capability-wide one, else none |
| `Quota.QuotaStore.SetDefinition` | internal/protection/quota.go:97-105 | written through: memory changes exactly when persistence did |
| `Quota.QuotaStore.ClearDefinition` | internal/protection/quota.go:108-116 | cleared through persistence |
| `Quota.KeysAreDistinct` | internal/protection/quota.go:56-64 | keys of capabilities without the separator are equal only for equal pairs |
| `Quota.SetThenClear` | internal/protection/quota.go:84-116 | clearing undoes setting, and setting changes what governs others only through the capability-wide entry |
| `Gate.Gate.Check` | internal/protection/gate.go:106-220 | the guards in their fixed order, with rollback, decide exactly what Decision reads off the state before the call and leave the state After describes |
| `Gate.Gate.AdmitOrReject` | internal/protection/gate.go:144-220 | concurrency, quota and rate with the slot rolled back on a later rejection |
| `Gate.Gate.ConsultBreaker` | internal/protection/gate.go:126-142 | open and unknown reject, closed and half-open pass |
| `Gate.Gate.ConsultQuota` | internal/protection/gate.go:166-192 | no definition passes, incomplete evidence and a breached ceiling reject |
| `Gate.SlotOutcomes` | internal/protection/gate.go:144-203 | taking and rolling back a slot leaves usage as it was |
| `Gate.Admission.Release` | internal/protection/gate.go:254-259 | release is idempotent |
| `Gate.Admission.RecordOutcome` | internal/protection/gate.go:245-250 | the outcome reaches the breaker of the admitted capability |
| `GateRuns.OnlyAdmissionsHoldSlots` | internal/protection/gate.go:106-220 | every reject path holds no slot, an admission exactly one |
| `GateRuns.SlotsAreLiveAdmissions` | internal/protection/gate.go:106-259 | over any run of checks, releases, outcomes and cap changes, slots in use equal live admissions and never exceed the bound |
| `GateRuns.OnlyLateChecksTouchBuckets` | internal/protection/gate.go:144-220 | kill, breaker, concurrency and quota rejections consume no token |
| `GateRuns.KillDecides` | internal/protection/gate.go:110-124 | a kill decides alone and changes nothing but the counters |
| `GateRuns.FirstComplaintDecides` | internal/protection/gate.go:106-220 | the decision is an action if and only if its guard complains and no guard before it in the documented order does; admission is what is left |
| `GateRuns.AdmittedIsWithinQuota` | internal/protection/gate.go:166-192 | an admission under a governing definition has complete usage within every ceiling that is set |
| `GateRuns.CheckCountsOnce` | internal/protection/gate.go:106-220 | exactly one decision counter rises by one per check |
| `GateRuns.MetricsAreExact` | internal/protection/gate.go:291-304 | over any run each counter reads how often its decision was taken |
| `GateRuns.AuditFailuresAreExact` | internal/protection/gate.go:106-220 | over any run the audit-failure counter reads how many rejections could not be audited |
| `GateRuns.AdmissionsAreRateBounded` | internal/protection/gate.go:195-220 | over any run of the gate, checks of one capability and principal hash are admitted at most capacity + refill * d times in a stretch whose readings span d seconds |
| `GateRuns.OpenCircuitBlocks` | internal/protection/gate.go:126-142 | a circuit opened at t turns away every check before t + cooldown, whatever happens in between |
| `Governance.Evaluate` | internal/governance/governance.go:24-66 | the verdict is that of the best matching rule, or the documented default |
| `Governance.SortStableSorts` | internal/governance/governance.go:37-42 | the sort is an ordered permutation |
| `Governance.SortingFindsTheBest` | internal/governance/governance.go:37-57 | first match after the stable sort is the best rule found without sorting |
| `Governance.BestIsACandidate` | internal/governance/governance.go:24-66 | no matching rule has higher priority, or the same priority and a smaller id |
| `Governance.VerdictMeans` | internal/governance/governance.go:24-94 | each code is given exactly when the deciding rule demands it of the state, no speaking rule comes before that one, and the default is given exactly when no rule speaks |
| `Governance.OrderNeverMattersIff` | internal/governance/governance.go:18-24 | the verdict is the same for every order of the rules if and only if the rules tied for best agree |
| `Governance.DistinctIdsAreUnambiguous` | internal/governance/governance.go:18-24 | distinct rule ids are enough for that |
| `Governance.DuplicateIdsDependOnOrder` | internal/governance/governance.go:18-24 | two rules with one id and priority: swapping them changes the verdict |
| `Governance.StringOrder` | internal/governance/governance.go:37-42 | byte order on ids is a strict total order |
| `Governance.BuildEvidence` | internal/governance/governance.go:99-120 | a key is present exactly when there is something to say and says it, and there is no other key |
| `Governance.EvidenceIsDetermined` | internal/governance/governance.go:99-120 | that leaves exactly one map |
| `Governance.KindNamesDiffer` | internal/governance/governance.go:99-120 | the kind named in the evidence tells the kind of the rule |
| `PolicyRepository.FileRepository.Get` | internal/governancepolicy/repository.go:122-139 | absence, unsafe ids and read failures are told apart |
| `PolicyRepository.FileRepository.Write` | internal/governancepolicy/repository.go:161-202 | publication is all or nothing |
| `PolicyRepository.FileRepository.CompareAndSave` | internal/governancepolicy/repository.go:339-403 | the save decides by the fixed order of checks and publishes one whole record or nothing |
| `PolicyRepository.FileRepository.CompareAndTransition` | internal/governancepolicy/repository.go:425-477 | the transition likewise, with the self-transition writing nothing |
| `PolicyRepository.OneStep` | internal/governancepolicy/repository.go:339-477 | one call takes at most one legal step of one policy, under the revision the caller named |
| `PolicyRepository.StepWrites` | internal/governancepolicy/repository.go:339-477 | what a step writes: the caller's rules on a save, the stored ones on a transition, the first creation time, and an activation time only activations set |
| `PolicyRepository.TransitionSucceedsIff` | internal/governancepolicy/repository.go:425-477 | with a working file system a transition succeeds if and only if the policy is stored under the named revision and the move is one of the four lifecycle edges, or no move |
| `PolicyRepository.SaveSucceedsIff` | internal/governancepolicy/repository.go:339-403 | and a save if and only if the name is safe and the revision named is the stored one, or 0 for a free name, and what is stored is a draft |
| `PolicyRepository.SuccessIsAChangeOrANoOp` | internal/governancepolicy/repository.go:339-477 | a success changed exactly its own policy, unless it was a self-transition |
| `PolicyRepository.OneWinnerPerRevision` | internal/governancepolicy/repository.go:339-477 | over any history exactly one call wins each revision the policy left behind, and no call any other |
| `PolicyRepository.LifeOfAPolicy` | internal/governancepolicy/repository.go:339-477 | the revision counts the changes, CreatedAt never changes, an archived record is never touched |
| `PolicyRepository.FromNothing` | internal/governancepolicy/repository.go:339-403 | from an empty store revisions start at 1 and count up |
| `AuditLog.EffectiveLimit` | internal/storage/audit_query.go:66-75 | the applied limit is always between 1 and 1000 |
| `AuditLog.MatchesByField` | internal/storage/audit_query.go:84-98 | a row matches if and only if every field the query asks for has the asked value |
| `AuditLog.HitsAreTheMatches` | internal/storage/memory.go:511-539 | a query selects exactly the matching rows below its cursor, newest first, none twice |
| `AuditLog.MemAuditStore.Append` | internal/storage/memory.go:470-476 | ids are 1, 2, 3, ... and a refused row changes nothing |
| `AuditLog.MemAuditStore.Query` | internal/storage/memory.go:511-539 | the backward walk returns the newest matches below the cursor and says truncated exactly when there are more |
| `AuditLog.MemAuditStore.ListByCorrelation` | internal/storage/memory.go:488-501 | the newest rows of one correlation id; a limit of 0 still returns one |
| `AuditLog.MemAuditStore.List` | internal/storage/memory.go:541-557 | the newest rows; a limit of 0 still returns one |
| `AuditLog.ContinueAfter` | internal/storage/memory.go:511-539 | continuing after the k-th match gives exactly the matches that follow it |
| `AuditLog.HitsIgnoreNewer` | internal/storage/memory.go:511-539 | rows appended behind a cursor are invisible to it |
| `AuditLog.WalkDelivers` | internal/storage/memory.go:511-539 | however the log grows between pages, n pages deliver the first n * limit matches of the starting log, newest first, each once |
| `AuditLog.TruncatedMeansMore` | internal/storage/memory.go:511-539 | truncated if and only if the next page would find something |
| `Management.Server.ServeMutation` | internal/management/server.go:242-296 | the pipeline: replay guard, intent, one commit, outcome, in that order and with every failure branch |
| `Management.Server.FinishSuccess` | internal/management/server.go:305-329 | the success row and answer, or the degraded answer |
| `Management.Server.FinishFailure` | internal/management/server.go:333-372 | the create-replay branch, the failure row with the observed revision, or the degraded answer |
| `Management.Server.CommitVerb` | internal/management/server.go:287-288 | one compare-and-swap call per verb |
| `Management.CommitIsOneCall` | internal/management/server.go:400-540 | every verb commits exactly one call of the repository's histories |
| `Management.ActionsTellVerbs` | internal/management/server.go:400-540 | the audit action of a row tells the kind of its mutation |
| `ManagementRuns.ChangeFollowsIntent` | internal/management/server.go:242-296 | the store moves only inside a request whose intent row is already logged, under the revision that row names; a 503 or replay refusal changes nothing |
| `ManagementRuns.DegradedClaim` | internal/management/server.go:384-393 | "NOT applied" is always true; "WAS applied" is true if and only if the request was neither a replayed create nor a self-transition |
| `ManagementRuns.AgreementKeptIff` | internal/management/server.go:242-372 | log and store stay in agreement if and only if it is not the case that the guard lets the request through, its intent is recorded, its commit will move the store and its outcome row will be refused: facts known before the call |
| `ManagementRuns.MovesIff` | internal/management/server.go:287-288 | a commit moves the store if and only if the repository decides for it, it is no self-transition, and the write works |
| `ManagementRuns.AppliedClaimCanBeFalse` | internal/management/server.go:384-393 | a self-transition whose outcome row is refused answers "WAS applied" with the store unmoved |
| `ManagementRuns.AcceptedMeans` | internal/management/server.go:284-330 | an accepted request left its policy as it asked: the requested rules or the target status, under the revision it named; the answer carries the stored record, with 201 exactly for a new one |
| `ManagementRuns.CreateReplayIff` | internal/management/server.go:333-372 | a create onto an existing policy is accepted if and only if both reads work and the stored rules are the requested ones |
| `ManagementRuns.RefusedMeans` | internal/management/server.go:333-393 | every refusal behind the intent states its reason truthfully in status and code, and changed nothing |
| `ManagementRuns.OutcomeRowTells` | internal/management/server.go:300-366 | the outcome row repeats actor and action of the intent and carries the stored revision, or -1 when a failure could not observe it |
| `ManagementRuns.LogAgreesWithStore` | internal/management/server.go:242-372 | over any run without outcome-append failure, each policy's newest success row carries its stored revision |
| `ManagementRuns.ServeKeepsTrail` | internal/management/server.go:242-372 | a terminal row directly follows its intent and is the last word of its chain |
| `ManagementRuns.TailTellsIff` | internal/management/server.go:914-924 | on any log, four rows of a chain show its outcome if and only if it has one and fewer than four rows follow its newest outcome |
| `ManagementRuns.TailTellsAll` | internal/management/server.go:914-924 | so they show it always where no key was used again behind its outcome |
| `ManagementRuns.RowsBehindStep` | internal/management/server.go:242-372 | what one request does to a key: nothing without a recorded intent under it; a recorded outcome becomes the newest row; a refused outcome row puts one more row on top of the outcome |
| `ManagementRuns.SpentKeysStaySpent` | internal/management/server.go:245-257 | once fewer than four rows follow its outcome, a key is refused and its chain never grows over any run in which the requests under it can read its tail; other keys may fail as they please |
| `ManagementRuns.GuardStopsIff` | internal/management/server.go:245-257 | on any log, a supplied key is stopped if and only if its tail can be read, it has an outcome, and fewer than four rows of it follow the newest one |
| `ManagementRuns.BuriedOutcomeIff` | internal/management/server.go:245-372 | after a recorded outcome and n requests under its key whose guard reads and outcome rows fail, the key still has its outcome, and the next request under it is stopped if and only if its tail can be read and n is less than four |
| `Reconciler.Reconciler.ClassifyIntent` | internal/management/reconcile.go:257-292 | one verdict per intent, by evidence, with unreadable evidence reported |
| `Reconciler.Reconciler.NewestRows` | internal/management/reconcile.go:145-159 | one row past the cap is read, so truncation is detected |
| `Reconciler.Reconciler.Scan` | internal/management/reconcile.go:136-178 | exactly one entry per intent row of the newest 1000, the scope of the search, and an unreadable trail reported as unknown |
| `Reconciler.ReportMeans` | internal/management/reconcile.go:136-178 | a report is truncated exactly when rows were left out and verified exactly when none was, and then every intent of the trail has its finding; its unexaminable count is the number of findings that say so |
| `Reconciler.Reconciler.PushScanHistory` | internal/management/reconcile.go:225-236 | the ring keeps the newest reports |
| `Reconciler.Reconciler.SetScanHistoryCap` | internal/management/reconcile.go:193-208 | resizing evicts the oldest |
| `Reconciler.RingKeepsTheNewest` | internal/management/reconcile.go:193-236 | a scan and a new cap both leave exactly the newest scans the cap has room for |
| `Reconciler.ClosedIff` | internal/management/reconcile.go:257-292 | on any log, a row reads closed if and only if its trail can be read, its id has an outcome, and fewer than four rows of the id follow the newest one |
| `Reconciler.FindingMeans` | internal/management/reconcile.go:257-292 | the other findings, by evidence: unexaminable if and only if the trail cannot be read, unresolved only with the stored revision beside it, no match only when the policy is gone or unreadable |
| `Reconciler.LostOutcomeFinding` | internal/management/reconcile.go:257-292 | a request whose outcome row was lost is reported with the stored revision, one above the intent's base exactly when its commit moved the policy |
| `Reconciler.FindingDoesNotTell` | internal/management/reconcile.go:245-256 | and yet a commit with a lost outcome and a stale request that moved nothing can leave the same finding, so nothing may be concluded from it |
| `Reconciler.ClosedOnATrailIff` | internal/management/reconcile.go:257-292 | where no key was used again behind its outcome, an intent reads closed if and only if it or a later intent of the same id has its own outcome row |
| `Reconciler.BuriedIntentIff` | internal/management/reconcile.go:257-292 | an intent with its own outcome row reads open after four requests under its key whose guard reads and outcome rows fail, and closed after fewer |
| `Reconciler.OwnIdClosedIff` | internal/management/reconcile.go:257-292 | for ids used once, as the server's own are, closed means its own outcome row exists, whatever happened under other keys |
| `Reconciler.OwnIdClosedAfterAnyRun` | internal/management/reconcile.go:257-292 | and so it is after every run of requests, whatever fails in it |
| `Reconciler.ReusedKeyClosesAnOrphan` | internal/management/reconcile.go:265-277 | a retry under a reused key makes an orphaned intent read closed |
| `Reconciler.RingIsHonestIff` | internal/management/reconcile.go:193-236 | over any run and from any cap, the ring is the newest scans within its cap, and its truncation flag tells the truth if and only if nothing was ever lost silently or something was also lost openly |
| `Reconciler.StaysHonestIff` | internal/management/reconcile.go:193-236 | one operation keeps an honest ring honest unless the flag is down and it is a scan at cap 0 or clears a ring that holds something |
| `Reconciler.PositiveCapsAreHonest` | internal/management/reconcile.go:193-236 | positive caps never lose a scan silently |
| `Reconciler.ZeroCapForgetsSilently` | internal/management/reconcile.go:193-208 | a cap of zero drops scans without raising the flag |
| `AppendOnlyLog.PlanPrefixDrop` | internal/controlplane/server/appendonly_log.go:191-216 | the plan drops the oldest groups beyond the bound and keeps the other lines in order |
| `AppendOnlyLog.CollectDropped` | internal/controlplane/server/appendonly_log.go:158-170 | the observer gets the dropped lines and their groups, oldest first |
| `AppendOnlyLog.LogFile.ReadLogLines` | internal/controlplane/server/appendonly_log.go:52-82 | non-blank lines, trimmed, in file order; ok means every one was classified |
| `AppendOnlyLog.LogFile.AppendLogLine` | internal/controlplane/server/appendonly_log.go:90-112 | a true append; a blank line is refused |
| `AppendOnlyLog.LogFile.Compact` | internal/controlplane/server/appendonly_log.go:140-186 | unreadable line, refusing observer or failed write leave the file as it was; otherwise it becomes the plan, and the observer saw exactly what is dropped |
| `AppendOnlyLog.CompactionKeepsTheNewest` | internal/controlplane/server/appendonly_log.go:191-216 | exactly the newest k groups are left; the observer's groups are exactly those before them |
| `AppendOnlyLog.GroupsSurviveWhole` | internal/controlplane/server/appendonly_log.go:191-216 | a line is kept if and only if its group is among the newest k |
| `AppendOnlyLog.CompactTwice` | internal/controlplane/server/appendonly_log.go:191-216 | compacting to k1 and then k2 is compacting to the smaller |
| `AppendOnlyLog.TidyReadsVerbatim` | internal/controlplane/server/appendonly_log.go:52-82 | reading a whole file gives its lines back verbatim if and only if none of them is blank or carries surrounding white space |
| `AppendOnlyLog.SurvivorsAreVerbatimIff` | internal/controlplane/server/appendonly_log.go:140-250 | a compaction writes the surviving lines trimmed, so they are verbatim if and only if no surviving line carries surrounding white space |
| `AppendOnlyLog.AppendKeepsTidy` | internal/controlplane/server/appendonly_log.go:90-112 | appends only ever write such lines |
| `AnchorDelivery.AnchorStream.Load` | internal/controlplane/server/snapshot_anchor.go:480-521 | last line of each group, conflicts set apart, or a refusal when a line cannot be read |
| `AnchorDelivery.AnswerMeans` | internal/controlplane/server/snapshot_anchor.go:817-850 | a response confirms if and only if it is a duplicate report or a 2xx with an acknowledgement that is not blank, and leaves the delivery open if and only if it broke, is a 5xx, or a 2xx without one |
| `AnchorDelivery.AttemptMeans` | internal/controlplane/server/snapshot_anchor_delivery.go:203-236 | one attempt counts once, keeps the statement, and ends anchored exactly on a confirmation, pending exactly on an open answer with attempts left, abandoned otherwise |
| `AnchorDelivery.AnchorStream.AppendEntry` | internal/controlplane/server/snapshot_anchor.go:572-612 | an append is refused on unreadable lines or another payload, else it is durable before any compaction |
| `AnchorDelivery.AnchorStream.CompactPrefix` | internal/controlplane/server/snapshot_anchor.go:628-649 | the capacity guard and the compaction behind it |
| `AnchorDelivery.AnchorStream.Dispatch` | internal/controlplane/server/snapshot_anchor_delivery.go:191-252 | one attempt advances the delivery state or, on a witness conflict, records nothing |
| `AnchorDelivery.AnchorStream.Sweep` | internal/controlplane/server/snapshot_anchor_delivery.go:263-323 | every loaded pending entry is visited once, in ascending order |
| `AnchorDelivery.AnchorStream.SweepEntry` | internal/controlplane/server/snapshot_anchor_delivery.go:294-320 | settled entries are skipped, exhausted ones terminalised, others dispatched |
| `AnchorDelivery.AnchorStream.Status` | internal/controlplane/server/snapshot_anchor_delivery.go:391-458 | exact counts by state; converged if and only if the stream is readable, no number has two statements, and no last line is pending |
| `AnchorRuns.ConflictIff` | internal/controlplane/server/snapshot_anchor.go:489-505 | comparing neighbours finds a conflict exactly when two lines of the group differ |
| `AnchorRuns.AppendTouchesOneGroup` | internal/controlplane/server/snapshot_anchor.go:572-612 | an append adds to its own group; compaction removes groups whole; nothing else changes |
| `AnchorRuns.SettledIsFinal` | internal/controlplane/server/snapshot_anchor_delivery.go:263-323 | a sweep never alters a settled entry, whatever the witness answers and whatever fails |
| `AnchorRuns.BrokenStreamUntouched` | internal/controlplane/server/snapshot_anchor_delivery.go:273-289 | an unreadable or self-contradictory stream is left as it is |
| `AnchorRuns.SweepMakesProgress` | internal/controlplane/server/snapshot_anchor_delivery.go:263-323 | a sweep without witness conflict or append failure brings every pending entry nearer to settled |
| `AnchorRuns.SweepsSettleEverything` | internal/controlplane/server/snapshot_anchor_delivery.go:263-323 | max-attempts such sweeps leave nothing pending; without a capacity every delivery is still there, unchanged if settled before, anchored or abandoned if it was pending |
| `AnchorRuns.AtRestIff` | internal/controlplane/server/snapshot_anchor_delivery.go:391-458 | a healthy stream is one no sweep would change if and only if nothing is pending, which is when Status answers converged |
| `AnchorRuns.EvictedIff` | internal/controlplane/server/snapshot_anchor.go:628-649 | the compaction itself empties exactly the oldest groups beyond the capacity and leaves every other group its lines |
| `AnchorRuns.WithinCapacityKeepsAll` | internal/controlplane/server/snapshot_anchor.go:572-649 | an append removes no line while the numbers without a conflict are within the capacity |
| `AnchorRuns.NeverEvictsUnconfirmedIff` | internal/controlplane/server/snapshot_anchor.go:628-649 | with the guard: no unconfirmed delivery loses a line if and only if the compaction does not run or all of the oldest groups beyond the capacity are confirmed |
| `AnchorRuns.AppendKeepsUnconfirmedIff` | internal/controlplane/server/snapshot_anchor.go:572-649 | the same for an append, on facts known before it |
| `AnchorRuns.OneOverIsSafe` | internal/controlplane/server/snapshot_anchor.go:628-649 | so the guard on the lowest number is enough while numbers ascend and the log is at most one group over |
| `AnchorRuns.GuardMissesTheSecond` | internal/controlplane/server/snapshot_anchor.go:633-648 | two groups over, confirming the first evicts the second, still pending |
| `ObservationRing.Collector.Record` | internal/observability/collector.go:191-206 | ingest keeps the ring, the counts and the counters in step with the whole history |
| `ObservationRing.Collector.At` | internal/observability/collector.go:228-230 | the i-th slot in ingest order, through the wrap, is the i-th of the newest Capacity |
| `ObservationRing.Collector.Observations` | internal/observability/collector.go:211-222 | the retained window in ingest order |
| `ObservationRing.MatchesByField` | internal/observability/query.go:23-47 | an observation matches if and only if every field the query asks for has the asked value |
| `ObservationRing.Collector.RunQuery` | internal/observability/query.go:23-47 | Query is the filter of the last Capacity ingested, in ingest order |
| `ObservationRing.Collector.Counter` | internal/observability/query.go:52-56 | a counter equals what every observation ever ingested added to it |
| `ObservationRing.Collector.Counters` | internal/observability/query.go:65-75 | the snapshot carries the exact total, and dropped = total - retained |
| `ObservationRing.Collector.Count` | internal/observability/query.go:80-84 | the size of the window |
| `ObservationRing.Collector.Complete` | internal/observability/collector.go:110-114 | complete if and only if the window is the whole history |
| `ObservationRing.OverwriteRotates` | internal/observability/collector.go:198-203 | overwriting at the head and moving it on drops the oldest and appends the newest |
| `ObservationRing.SourceCounterIsExact` | internal/observability/collector.go:233-243 | observations_total of a source counts its observations over the whole history, despite eviction |
| `ObservationRing.StatusCounterIsExact` | internal/observability/collector.go:233-243 | execution_status_total counts the executions in that status over the whole history |
| `ObservationRing.VerdictCounterIsExact` | internal/observability/collector.go:233-243 | verdict_total counts its verdicts over the whole history, as long as no source contains the label separator |
| `ObservationRing.BarsCollide` | internal/observability/collector.go:277-292 | without that condition two verdicts share a counter |
| `Framing.Stream.WriteFrame` | ecosystem/sdk/protocol.go:155-167 | header and body are appended |
| `Framing.Stream.ReadFrame` | ecosystem/sdk/protocol.go:172-193 | one read, with its five refusals and what each leaves in the stream |
| `Framing.ReadBack` | ecosystem/sdk/protocol.go:155-193 | reading undoes writing for every body, newlines included; over the cap the body stays unread |
| `Framing.ManyReadBack` | ecosystem/sdk/protocol.go:155-193 | any concatenation of frames reads back in order and consumes exactly its bytes |
| `Framing.FramesAreUnambiguous` | ecosystem/sdk/protocol.go:155-193 | no byte stream is two different sequences of frames |
| `Framing.OversizedLeavesTheBody` | ecosystem/sdk/protocol.go:185-187 | a declared length is refused with every body byte unread if and only if it exceeds the cap |

## Left out

- HTTP handlers, request decoding, authentication, dashboards, flags and configuration: plumbing around the modelled calls.
- JSON, base64, SHA-256, Ed25519 and HMAC: lines and cursors are modelled after decoding, signed payloads as opaque text.
- Physical layout of the transition file: lines are modelled parsed, with a torn flag on the last one; a file that consists of newlines only, byte budgets and deadlines appear as read failures.
- Record times: a record line always carries a non-zero time.
- ReadRecent and ReadAll of the transition store: the same scan without a cursor, easy beside ReadBefore.
- int64 wrap-around of sequence numbers, revisions, attempt counts and counters: unbounded integers there; interval arithmetic is int64.
- DurablePaging.WalkDelivers: every page asks for at least one record, because the code answers a request for none with an empty last page and no cursor; the same holds for WholeWalkDelivers.
- TransitionFile.NextSeqIsFreshIff: numbers and watermarks in the file are taken as not negative, because the store never writes a negative one.
- Rounding of float64 token counts, and two goroutines inside one token bucket or one gate check at the same time: checks and takes are modelled one after another.
- The kill store and its tri-state: its two answers are flags of the request; audit and provenance text of the gate carries no state beyond the failure counter.
- Agreement of the published Finished event with the stored record: the code does not give it, because a cancel can land after the last check.
- The execution store itself, whose Transition is taken as one atomic compare-and-set; admission, audit and event publication around a run.
- Save, Activate, Deactivate and Archive of the policy repository: documented as having no revision semantics.
- Two processes sharing a policy directory; the mutex makes the calls of one process sequential, and the model takes them so.
- Management requests are run one after another; two requests overlapping between intent and outcome are not modelled.
- Detail, timestamp and the weak references of audit rows; SQLite, whose query is documented to behave like the modelled one.
- Crash of the process in the middle of a compaction or migration beyond the atomic rename.
- The table of six anchor streams and their partition among sweepers: one stream is modelled, and the sweep visits streams one after another.
- Anchor signatures, window continuity, usability of entries, the witness reconciliation and the decision-log fields of the status face; the oldest pending time and last abandonment reason of that face.
- Detail strings of anchor deliveries: the recorded errors are short names for them.
- Adapters of the observability collector that copy a frozen event into an observation.
- Text as bytes: a character of the models is a code point; invalid UTF-8, and frame lengths of text outside ASCII, are not modelled.
- Failing writes of a frame: a write error ends the exchange.
