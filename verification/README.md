# Levenshtein, verified

A Dafny model of the parts of Levenshtein that hold state, run a protocol or compute a fixpoint,
with proofs of what they promise. `dafny verify dfyconfig.toml` checks all of it.

- **Duration analysis** (`ClockExpressions`, `ClockFixpoint`, `DurationFlow`, `DurationTraces`,
  `SynctestBubbles`).
  The wall-clock lint's function-wide fixpoint, its worklist over a control-flow graph, and its
  search for synctest bubbles. An expression is what `reading` and `duration` tell apart, a block
  is its stores, reads and range variables. The worklist computes exactly the union over all paths,
  whatever order Go visits its maps in: what some execution reads, statement by statement.
- **Workspaces and scheduling** (`WorkspaceGate`, `Protocol`, `ProtocolSafety`,
  `ProtocolModes`, `ProtocolProgress`, `ProtocolTermination`). The gate and the file hold are classes proved against
  functions of their state. Those functions are then the atomic steps of a transition system of any
  number of processes, sessions and checks, with cancellations, failures and kills at every step.
  Its runs never break exclusion, never get stuck and always end; a check enters its tree in the mode
  its work needs, and waits for nobody it need not.
- **Result cache and listings** (`ResultCache`, `Discovery`). The record and `.retry` marker under
  every crash, and the epochs that keep a git listing from being older than the last execution.
- **Stat memo** (`FileTimes`, `StatMemo`, `StatRuns`). A file is its history of versions with
  modification times; an entry is right because of arithmetic on those times. The sharded record
  on disk survives a kill between any two shards, and sessions that load and flush it at once.
- **Baseline** (`Messages`, `MessageLaws`, `Baseline`, `BaselineRecord`, `BaselineLaws`,
  `BaselineAnswers`, `BaselineWritten`, `BaselineRoundTrip`).
  `Apply` and `Record` are methods proved against their results for any map order, and the laws tie
  the two together. A recorded baseline accepts its own run exactly when every reported message is
  stable under a second `normalizeMessage`, which holds exactly when no Go position is left in it.
- **Mutation verdict and diffs** (`MutationEntries`, `MutationVerdict`, `MutationLaws`,
  `MutationAnswers`, `LineRanges`, `Quoting`, `GitDiff`, `GitNames`, `DiffParser`, `DiffLaws`, with
  `Text` and `Order`). The
  verdict and its independence of report order, the range merge, the diff it prints, and two readers
  of git's zero-context diffs that agree, whatever the files are named.
- **File sets** (`Paths`, `Listing`, `FileSet`, `FileSetReaders`, `SnapshotLaws`). One enumeration and its two
  readers, over a tree of regular files and directories: what a scanner reads is what its key
  hashed, and a key covers every file its inputs hold.

Each operation is proved against a function or predicate of its own, and the modules named for laws,
answers, traces and modes say what those give over the inputs' own fields.

Where the code and its words part, the model follows the code:

- The stat memo's answer is sure to equal rereading the file now only while the caller's stat is
  still the file's. Once a write or a chmod has taken that stat away, wrong answers arise exactly when
  a write tore the entry's read, or the file's permissions are not those of the stat, or its content
  is not what it was at hashedAt (`StatRuns.WrongAnswersExactlyWhen`). An entry made before the
  caller's stat answers with the file as it was at that stat; one that another check of the session
  stored since may answer with the file now, with neither, or with content that was there only in
  between (`StatRuns.NewerAnswer`, `TornAnswer`, `PassingAnswer`).
- `Record` followed by `Apply` is a fixed point only for stable messages
  (`BaselineRoundTrip.SomeMessageIsUnstable`); a finding coded `baseline-stale` needs no premise,
  because neither function counts one. A completed check of a baseline kind that failed without
  findings passes once a baseline is applied.
- A record on disk is current even while its `.retry` marker is still there
  (`ResultCache.RecordIsCurrent`), which is more than a lookup relies on.
- If `skip` named ".", which no caller's does, `visibleFiles` would not go below a walk from the root:
  it shows what its key hashed exactly when every file to show is also reached without going into the
  root (`FileSetReaders.VisibleAreKeyed`), and a filesystem walk of the whole source shows nothing
  (`FileSetReaders.SkippedRootShowsNothing`).

A result lock and the source's file lock are exclusive across processes. The digest of a
fingerprint is injective: a fingerprint is the value it digests. The clock never runs backwards.

## Model

| member | source | states |
|---|---|---|
| `ClockExpressions.ReadingMonotone` | runner/lint/policy/wallclock.go:492-504 | A larger set of reading variables only makes more expressions readings of the clock |
| `ClockExpressions.DurationMonotone` | runner/lint/policy/wallclock.go:509-544 | Larger sets of readings and measured variables only make more expressions measured durations |
| `ClockExpressions.DurationHasOneCause` | runner/lint/policy/wallclock.go:509-544 | With readings fixed, what makes an expression a measured duration is either no variable at all or one measured variable alone: a disjunction of variable bits |
| `DurationTraces.ReadingExactlyWhen` | runner/lint/policy/wallclock.go:492-504 | An expression is a reading exactly when it is a copy, of any depth, of time.Now() or of a variable that only holds one |
| `DurationTraces.DurationExactlyWhen` | runner/lint/policy/wallclock.go:509-544 | An expression is a measured duration exactly when some part of it, through signs, arithmetic, conversions, min and max and methods of a duration, is time.Since, a difference of two readings or a measured variable |
| `ClockFixpoint.MeasureClock` | runner/lint/policy/wallclock.go:402-467 | The in-place rounds over the stored values end, in any visiting order, at a least closed pair of readings and measured variables |
| `ClockFixpoint.LeastClosedUnique` | runner/lint/policy/wallclock.go:402-467 | There is only one least closed pair, so Go's random map order cannot show in the result |
| `ClockFixpoint.LeastIsFixed` | runner/lint/policy/wallclock.go:452-467 | In the least closed pair a variable is a reading exactly when every stored value is one, and measured exactly when some is |
| `DurationFlow.StoreDuration` | runner/lint/policy/wallclock_flow.go:85-116 | A variable a statement does not store in is as before. One it does is measured exactly when it was and the store is compound, or the right side paired with its last left side is a duration by the state before the statement |
| `DurationFlow.TransferMonotone` | runner/lint/policy/wallclock_flow.go:34-83 | A block entered with more measured variables leaves with more |
| `DurationFlow.TransferDistributes` | runner/lint/policy/wallclock_flow.go:34-83 | What a block leaves measured it leaves measured when entered with at most one of its entry variables: transfer distributes over union |
| `DurationFlow.ReadsDistribute` | runner/lint/policy/wallclock_flow.go:34-83 | A read found measured is found measured when its block is entered with at most one of its entry variables |
| `DurationFlow.PathsAreCovered` | runner/lint/policy/wallclock_flow.go:34-83 | Once every reached block is settled, running any path block by block stays below the incoming map of its last block |
| `DurationFlow.FlowDurations` | runner/lint/policy/wallclock_flow.go:34-83 | The worklist ends on every graph, and adds to uses exactly the identifiers some path from the entry reads with their variable measured, path by path |
| `DurationFlow.ClosureWrites` | runner/lint/policy/wallclock_flow.go:120-144 | Exactly the measured variables stored inside a callback that does not declare them stay measured at every block |
| `DurationFlow.DurationUses` | runner/lint/policy/wallclock_flow.go:16-32 | Over a body and its literals, the result is the union of what each graph's paths read, in any order |
| `DurationTraces.ReadExactlyWhen` | runner/lint/policy/wallclock_flow.go:34-116 | What the paths read is what executions read: statement by statement, with range variables forgotten, stores made and callbacks' variables kept |
| `DurationTraces.OnePass` | runner/lint/policy/wallclock_flow.go:34-83 | A block can be passed in one way only, and leaves what its transfer says |
| `DurationFlow.Collect` | runner/lint/policy/wallclock.go:402-430 | The stores measureClock collects are exactly the values the program puts in each variable: those of its statements, its range variables and its other declarations |
| `DurationFlow.CollectionsAgree` | runner/lint/policy/wallclock.go:402-467 | Whatever order the stores are collected in, the least closed pair is the same |
| `DurationTraces.VariablesExactlyWhen` | runner/lint/policy/wallclock.go:402-467 | Over a function's statements: a variable holds a reading exactly when it is given a value and every value it is given is seen to be one, and a measurement exactly when some value is; a declaration without values gives none |
| `DurationFlow.UsesRefineMeasured` | runner/lint/policy/wallclock_flow.go:16-83 | Every identifier in uses names a variable of the function-wide measured set: the flow-sensitive analysis only narrows the fixpoint, for every program and the stores collected from it |
| `DurationFlow.ClassifyUses` | runner/lint/policy/wallclock.go:223-251 | Collecting the stores, seeding with their fixpoint and following the flow gives the least closed pair, exactly the path-measured reads, and the refinement, a function of the program alone |
| `SynctestBubbles.SynctestBodies` | runner/lint/policy/wallclock.go:112-218 | The search for bubble code ends, and finds exactly the functions and literals a chain of calls from a synctest callback reaches; nothing when no file imports synctest |
| `SynctestBubbles.ReachesExactlyWhen` | runner/lint/policy/wallclock.go:168-218 | Code runs in a bubble exactly when a chain of calls leads to it from a callback: by a literal, by name, or by any literal the called variable is given |
| `WorkspaceGate.Gate.Turn` | internal/verify/gate.go:42-97 | One turn of acquire under the mutex: admits exactly when the gate allows it and counts the holder, or parks on the current wake channel, or a new one |
| `WorkspaceGate.Gate.Arrive` | internal/verify/gate.go:42-97 | acquire up to its first wait: a writer is queued while it waits, a reader only parks |
| `WorkspaceGate.Gate.Cancel` | internal/verify/gate.go:42-97 | A cancelled wait takes a queued writer off the count and wakes the others |
| `WorkspaceGate.Gate.Broadcast` | internal/verify/gate.go:100-114 | Closes the current wake channel, and only that |
| `WorkspaceGate.Leaver.Leave` | internal/verify/gate.go:42-97 | The release leaves the gate the first time it is called and changes nothing after |
| `WorkspaceGate.FileHold.Join` | internal/verify/gate.go:116-153 | The first holder takes the file lock, later ones share it, and a refused lock leaves nothing held |
| `WorkspaceGate.FileHold.Drop` | internal/verify/gate.go:116-153 | The last holder to leave drops the file lock, and only the last |
| `Protocol.CheckParallelism` | internal/verify/run.go:69-83 | At least one slot, never more slots than checks or than the caller's jobs or the default cap allow, and as many as they do |
| `ProtocolSafety.ReachableInv` | internal/verify/gate.go:42-97 | In every reachable state the gate counters are the actual holders and queued writers, a writer is alone, no parked waiter could enter, and hold, file lock, slots and preparation order agree with who is where |
| `ProtocolSafety.TreeIsExclusive` | internal/verify/gate.go:166-187 | While an actor is in a source exclusively no other is in it in the same process, and with a common cache directory no two processes are ever in one source together |
| `ProtocolModes.NativeChecksAreInTheTree` | internal/verify/cache.go:222-236 | In every reachable state a native check that executes, or looks up artifacts to restore, is inside its source's tree, exclusively exactly when it writes the tree or restores under its result lock |
| `ProtocolModes.WritersWorkAlone` | internal/verify/cache.go:314-390 | While a native check writes its source's tree, or may restore artifacts there, no other check of the process is in it, and with a common cache directory none of any process |
| `ProtocolModes.OthersStayOut` | internal/verify/cache.go:314-324 | A check that is not native is never in a tree |
| `ProtocolModes.AdmittedExactlyWhen` | internal/verify/gate.go:42-97 | A turn at the gate admits a shared check exactly when nobody is in exclusively or queued to be, so shared checks overlap, and an exclusive one exactly when nobody is in |
| `ProtocolSafety.HoldersOwnTheFile` | internal/verify/gate.go:116-153 | A process owns a source's file lock exactly while its hold has a holder |
| `ProtocolSafety.ReleaseNeverWaitsForTheLock` | internal/verify/gate.go:116-153 | Whoever has the hold's slot while another check of the process is leaving can take its next step at once: a release never waits behind a blocked lockFile |
| `ProtocolSafety.ParkedCannotEnter` | internal/verify/gate.go:42-97 | No lost wake-up: a waiter parked on the unclosed channel could not be admitted, also after a queued writer cancels |
| `ProtocolSafety.QueuedWriterHoldsBackReaders` | internal/verify/gate.go:42-97 | While a writer is queued no step of anyone raises the reader count |
| `ProtocolModes.WaitsForFileLock` | internal/verify/gate.go:110-153 | A check gets the source's file lock exactly when no check of another process holds it; checks of one process share it |
| `ProtocolModes.WaitsForSlot` | internal/verify/run.go:98-160 | A check takes a slot exactly when fewer of its session than `workers` have one |
| `ProtocolSafety.SlotsBoundRunning` | internal/verify/run.go:98-160 | At most `workers` checks of a session hold a slot at once |
| `ProtocolSafety.PreparationsRunInOrder` | internal/verify/run.go:98-160 | Checks that share a preparation never overlap: a later one runs only when every earlier one has finished |
| `ProtocolModes.WaitsForPreparations` | internal/verify/run.go:89-160 | Before its slot a check waits for exactly the earlier checks of the plan whose preparation is the same |
| `ProtocolModes.SharedPreparationsAreDone` | internal/verify/run.go:89-160 | Once it runs, all of those are finished |
| `ProtocolSafety.ResultLocksAreExclusive` | internal/verify/cache.go:359-394 | Two checks never hold one result lock |
| `ProtocolModes.WaitsForResultLock` | internal/verify/cache.go:359-394 | A check takes a result lock exactly when no check holds it |
| `ProtocolModes.LookupsKeepTheirLock` | internal/verify/cache.go:216-282 | A check whose results the run reuses executes under the result lock of its key, unless a step of its own fails or its fingerprint changes under three locks |
| `ProtocolModes.OthersNeverLookUp` | internal/verify/cache.go:186-222 | A check without a cache directory, or whose results are not reused, never takes a result lock nor loads a record |
| `ProtocolModes.FinishedChecksRan` | internal/verify/cache.go:186-324 | A check that finishes uncancelled, let into its tree and without a record of its own has executed; one that must run again, whatever records there are |
| `ProtocolSafety.ReleasedHoldsNothing` | internal/verify/cache.go:359-394 | Between attempts, on the direct route and when done, a check holds no result lock, no gate and no place in the hold: every error path releases everything |
| `ProtocolProgress.DeadlockFree` | internal/verify/run.go:98-160 | Every reachable state with an unfinished check has an enabled step, for any number of processes and sessions, any plans, at least one worker, and any cancellations, failures and crashes |
| `ProtocolTermination.StepsMeasureDown` | internal/verify/cache.go:359-394 | Every step of every check lowers one measure, so retries and wake-ups cannot go round for ever |
| `ProtocolTermination.StretchesEnd` | internal/verify/run.go:98-160 | A stretch of a run in which no process is killed has at most as many steps as the measure of its first state, in any interleaving |
| `ProtocolTermination.MaximalStretchesFinish` | internal/verify/run.go:98-160 | A stretch that cannot be extended ends with every check finished or its process killed |
| `ResultCache.RunsKeepInv` | internal/verify/cache.go:262-310 | In every state of every run, what each place of execute knows of the record, the marker and the newest execution holds |
| `ResultCache.RecordIsCurrent` | internal/verify/cache.go:262-310 | A record on disk is the verdict of the most recently begun execution under its key, which passed with the fingerprint equal to the key before and after; without a published newest execution the marker is there and no record is |
| `ResultCache.HitsAreCurrent` | internal/verify/cache.go:186-258 | A verdict served from the cache is the newest execution's, while nobody is executing |
| `ResultCache.RunsServeCurrent` | internal/verify/cache.go:186-258 | Over whole runs with edits, kills and faults between any two writes, no hit ever returns a superseded verdict |
| `ResultCache.OneActorWorks` | internal/verify/cache.go:186-258 | One actor at a time works under a key |
| `ResultCache.Store.Execute` | internal/verify/cache.go:262-310 | execute in sequence: the files it leaves and what it reports, for each file operation that may fail, each outcome and each fingerprint after it |
| `ResultCache.ExecutePlaysItsScript` | internal/verify/cache.go:262-310 | The sequential method and the interleaved steps agree: played to its end, an execution's steps leave the files Execute leaves |
| `ResultCache.PassedIsServed` | internal/verify/cache.go:216-312 | A passing execution on unchanged inputs whose files can be written is served to the next lookup, although that looks at the marker |
| `ResultCache.ExecutionLeaves` | internal/verify/cache.go:262-312 | An execution leaves its record exactly when it passed on unchanged inputs and each file operation was done, and no marker only beside a complete record |
| `ResultCache.Held.LockedFingerprint` | internal/verify/cache.go:359-394 | At most three attempts; success holds exactly the key's lock and, when gated, the workspace; every failure and every abandoned attempt leaves nothing held |
| `Discovery.Listings.Relist` | internal/verify/discovery.go:89-95 | The memo of the source is dropped and its epoch raised |
| `Discovery.Listings.Settle` | internal/verify/discovery.go:48-77 | A listing is kept only when no relist came between its start and its end, and another caller's kept listing wins |
| `Discovery.MemoIsNewerThanRelists` | internal/verify/discovery.go:48-95 | In every interleaving a memoized listing's git run began after every relist of its source so far |
| `Discovery.AnswersSeeEarlierRelists` | internal/verify/discovery.go:48-95 | A call made after a relist, such as a fingerprint after executeOnce returned, is answered from a git run begun after that relist |
| `Discovery.SettledIsRemembered` | internal/verify/discovery.go:48-98 | Without a relist in between a call is answered with the kept listing or keeps its own, and every later call is answered with it at once |
| `Discovery.RelistedIsNotKept` | internal/verify/discovery.go:48-98 | After a relist in between a call gets its own listing and the memo stays as it was |
| `FileTimes.LateStampsAreLate` | internal/verify/statcache.go:62-87 | A version stamped after a moment is never modified more than the timestamp granularity before it |
| `FileTimes.NotWrittenSince` | internal/verify/statcache.go:62-87 | A file last modified long enough before a moment has kept its content since that moment |
| `FileTimes.SettledEntryIsRight` | internal/verify/statcache.go:71-87 | While a file's stat is the settled entry's, rereading it gives the entry's value, whatever was written between the stat, hashedAt and the read |
| `FileTimes.RacyEntryCanBeWrong` | internal/verify/statcache.go:71-87 | Inside the racy window an entry with an unchanged stat can be wrong, which is why it is dropped |
| `FileTimes.StaleStatCanBeWrong` | internal/verify/fingerprint.go:175-202 | A write after the caller's stat makes a settled answer differ from rereading now: the stat must still be current |
| `FileTimes.TornReadIsOutdated` | internal/verify/fingerprint.go:175-202 | A write that tore a settled entry's read took the entry's stat from the file for good |
| `FileTimes.SureExactlyWhen` | internal/verify/fingerprint.go:175-202 | Whatever bytes a torn read returns, what fileEntry stores is what rereading gives at a later time exactly when nothing tore the read and the file has the stat's permissions and hashedAt's content |
| `StatMemo.Shards` | internal/verify/statcache.go:119-129 | Ends for every size and limit, with the least power of two that keeps the average shard under half the limit |
| `StatMemo.WriteThenPrepare` | internal/verify/statcache.go:140-275 | A completed write, over any old shards and with any leftovers that could not be removed, loads back in a new session exactly the settled entries |
| `StatMemo.StoredOnce` | internal/verify/statcache.go:131-135 | Every entry is stored in exactly one shard |
| `StatMemo.FnvVectors` | internal/verify/statcache.go:131-135 | The hash that picks a shard gives FNV-1a's published values |
| `StatMemo.FirstShardIsLast` | internal/verify/statcache.go:242-265 | Until shard 0 is written the old count stands; once it is, every shard it counts is there |
| `StatMemo.NextSessionRemembers` | internal/verify/statcache.go:198-275 | An entry looked at, or whose file is as recorded, answers the next session as it did this one once flushed, and no other entry does |
| `StatMemo.CrashLoadsOnlyWritten` | internal/verify/statcache.go:246-275 | Killed or refused at any point of write, the next session loads only entries this flush or an earlier one wrote |
| `StatMemo.StatStore.Prepare` | internal/verify/statcache.go:140-164 | Loads a root's shards the first time and never again, and changes no other root |
| `StatMemo.StatStore.Load` | internal/verify/statcache.go:167-173 | Keeps exactly a record's settled entries |
| `StatMemo.StatStore.Lookup` | internal/verify/statcache.go:175-188 | Answers with a settled entry whose stat matches, and nothing else, and marks what it looked at as seen |
| `StatMemo.StatStore.Store` | internal/verify/statcache.go:190-196 | Replaces the entry of one file and marks it seen |
| `StatMemo.StatStore.Write` | internal/verify/statcache.go:246-275 | Writes shards downwards, the first one last, cut short anywhere, then removes leftovers |
| `StatRuns.AnswersAreRereads` | internal/verify/statcache.go:140-275 | In every state of every run of sessions that hash, load, flush and are killed in any interleaving over one cache directory while files are written, an answer to a stat the file still has is what rereading the file gives |
| `StatRuns.WriteFollowsStore` | internal/verify/statcache.go:246-275 | Undisturbed, the steps that write shards leave what StatStore.Write does |
| `StatRuns.LoadFollowsStore` | internal/verify/statcache.go:140-173 | Undisturbed, the steps that load shards leave what StatStore.Prepare does |
| `StatRuns.AnswersAreRereadsExactlyWhen` | internal/verify/fingerprint.go:175-202 | For every answer in every run: from an untorn read it equals rereading now exactly when the file has the stat's permissions and hashedAt's content, and equals the file at the stat exactly when the content then was hashedAt's, as it was if the stat is not older than hashedAt; from a torn read, the tearing write is younger than the stat and took that stat from the file for good |
| `StatRuns.WrongAnswersExactlyWhen` | internal/verify/fingerprint.go:175-202 | For every history of a file, every read of it and every stat that read answers: some run answers otherwise than rereading now exactly when a write tore the read, or the permissions now are not the stat's, or the content now is not hashedAt's |
| `StatRuns.EveryEntryArises` | internal/verify/fingerprint.go:175-202 | Every entry a file's history allows fileEntry to make is in some run's memory |
| `StatRuns.AnswersAreTheStatsOwn` | internal/verify/statcache.go:175-188 | In every run, an answer from an entry made before the caller's stat is the file as it was at that stat |
| `StatRuns.TornAnswer` | internal/verify/fingerprint.go:175-202 | A run whose answer, torn by a write after the caller's stat, is neither the file at the stat nor the file now |
| `StatRuns.NewerAnswer` | internal/verify/fingerprint.go:175-202 | A run whose answer, stored by another check after the caller's stat, is the file now and not the file at the stat |
| `StatRuns.PassingAnswer` | internal/verify/fingerprint.go:175-202 | A run whose answer is neither, though the file now reads as it did at the stat: it was written and written back |
| `Messages.StableExactlyWhen` | internal/verify/baseline.go:90-96 | Normalizing a normalized message again changes nothing exactly when no Go position is left in it; otherwise it gets shorter |
| `Messages.CollapseCollapsed` | internal/verify/baseline.go:90-96 | Collapsing white space twice is collapsing it once |
| `MessageLaws.MovedLineMatches` | internal/verify/baseline.go:88-96 | A message that mentions another line or column of a Go file normalizes to the same text, whatever else it holds |
| `MessageLaws.PositionIsDropped` | internal/verify/baseline.go:88-96 | Every Go position becomes its file alone, and what is around it is normalized as if it were not there |
| `MessageLaws.SpacingIsForgotten` | internal/verify/baseline.go:88-96 | However its words are spaced, a message collapses to them joined by single spaces |
| `Baseline.Apply` | internal/verify/baseline.go:293-365 | For any map order: each judged result is marked and settled with its stale findings in order, the others are untouched, and the summary and status follow |
| `Baseline.MarkFindings` | internal/verify/baseline.go:315-326 | The first findings of each key, up to its allowance, are marked, and what is left is the allowance less the matching findings |
| `Baseline.ChargeStale` | internal/verify/baseline.go:336-343 | Whatever order the entries are visited in, each one short in every covering check is charged to its first cover, once |
| `BaselineLaws.MarksAreMin` | internal/verify/baseline.go:306-326 | Apply marks exactly min(entry count, matching eligible findings) of each key |
| `BaselineLaws.MarkedAt` | internal/verify/baseline.go:315-326 | Marking keeps every finding in its place and changes nothing but its baselined flag |
| `BaselineLaws.ChargeIsLeast` | internal/verify/baseline.go:328-343 | An entry's charge is the least shortfall among the checks that cover it, and goes to the first of them |
| `BaselineLaws.PassesExactlyWhen` | internal/verify/baseline.go:440-458 | A judged result passes exactly when nothing stale is charged to it and each key's findings fit in what the baseline allows |
| `BaselineLaws.ApplyAddsOnlyStale` | internal/verify/baseline.go:293-365 | The results' findings grow by exactly the stale entries that are not orphaned: each is charged once |
| `BaselineAnswers.AcceptedExactlyWhen` | internal/verify/baseline.go:306-326 | Over fields: Apply changes of a finding only whether it is baselined, and baselines exactly those an entry of the check's kind and directory names by file, code and message, up to its count |
| `BaselineAnswers.MissingIsLeast` | internal/verify/baseline.go:328-343 | An entry is stale exactly when some check of its kind and directory ran its rule and every one that did left part of its count unused; what is missing is the least any left |
| `BaselineAnswers.AddedExactlyWhen` | internal/verify/baseline.go:336-356 | What Apply adds to a result are the stale findings of exactly the stale entries it is the first to judge |
| `BaselineAnswers.CoversExactlyWhen` | internal/verify/baseline.go:226-274 | A check covers an entry of its kind and directory exactly when it reported the code or ran its rule: a core one it selects, or a community one it selects, has and did not skip |
| `BaselineAnswers.SummaryCounts` | internal/verify/baseline.go:358-364 | The summary counts exactly the stale and the orphaned entries, and lists the orphaned ones |
| `BaselineAnswers.OrphanExactlyWhen` | internal/verify/baseline.go:397-417 | An entry is orphaned exactly when no configured check of its kind and directory could run its rule and none of this run did |
| `BaselineAnswers.SummaryBaselined` | internal/verify/baseline.go:315-326 | On a report no baseline was applied to, the summary counts the findings that end up baselined |
| `BaselineAnswers.JudgedOutcome` | internal/verify/baseline.go:440-458 | A judged result fails exactly while a finding is neither advisory nor baselined or a stale one was added, and its error says which |
| `BaselineAnswers.OthersAreKept` | internal/verify/baseline.go:306-310 | A result of another kind, or without a verdict, is kept as it is |
| `BaselineAnswers.ReportConcludes` | internal/verify/baseline.go:357-362 | The report passed exactly when there are results, each passed and nothing is orphaned; it is incomplete exactly when there are none, and failed otherwise |
| `BaselineRecord.Record` | internal/verify/baseline.go:477-536 | Refuses exactly the runs with an unfinished check or none; otherwise writes, in order, the most findings any check reported of each key and the kept entries, and the added and removed totals, for any map order |
| `BaselineWritten.WrittenExactlyWhen` | internal/verify/baseline.go:499-532 | Over fields: an entry is written exactly when it is an old one that no check of the run judged and some configured check could, or else holds findings of the run and counts the most any check reported |
| `BaselineWritten.WrittenInOrder` | internal/verify/baseline.go:534-548 | Entries are in order of kind, directory, file, code and message, none twice |
| `BaselineWritten.RefusesExactlyWhen` | internal/verify/baseline.go:477-486 | Record refuses exactly a run of no checks or one with a check that neither passed nor failed |
| `BaselineWritten.UnrecordedExactlyWhen` | internal/verify/baseline.go:499-507 | Exactly the failed checks of other kinds are named as not recorded |
| `BaselineWritten.ChangeExactlyWhen` | internal/verify/baseline.go:524-533 | Removed is what the old entries count beyond the new ones key by key, and added the rest of the difference |
| `BaselineRoundTrip.ReportedIsWritten` | internal/verify/baseline.go:499-536 | Every eligible finding is recorded with the most any check reported of its key, in an entry its own check covers |
| `BaselineRoundTrip.WrittenIsNoOrphan` | internal/verify/baseline.go:400-417 | No written entry is orphaned: what is kept some check could report, what is counted some check reported |
| `BaselineLaws.RecordConserves` | internal/verify/baseline.go:488-536 | New total = old total + Added - Removed |
| `BaselineRoundTrip.RecordThenApply` | internal/verify/baseline.go:469-536 | Applying a recorded baseline to the run it was recorded from passes every judged check exactly when every message the run reported is stable; then nothing is stale, and nothing is orphaned in any case |
| `BaselineRoundTrip.RecordThenApplyPasses` | internal/verify/baseline.go:293-536 | The report of a run its own recorded baseline is applied to passes exactly when every message it reported is stable and every result no baseline judges passed |
| `BaselineRoundTrip.RecordAgain` | internal/verify/baseline.go:477-536 | Recording the same run again adds and removes nothing exactly when every message it reported is stable |
| `BaselineRoundTrip.UnstableFails` | internal/verify/baseline.go:80-96 | With an unstable message reported, some check the recorded baseline judges still fails |
| `BaselineRoundTrip.SomeMessageIsUnstable` | internal/verify/baseline.go:88-96 | "x.go:1:2:3" is recorded as "x.go:3" and then matched as "x.go" |
| `Quoting.UnquoteQuote` | runner/mutation.go:602-623 | A quoted file name reads back as itself, whatever characters it holds |
| `Quoting.QuoteIsOneLine` | runner/mutation.go:602-623 | A quoted file name stays on one line |
| `Quoting.EscapesAreGos` | runner/mutation.go:602-623 | Control characters, quotes, backslashes and unprintable characters are written as Go writes them |
| `Text.AtoiItoa` | internal/gitchange/gitchange.go:266-284 | A printed count parses back |
| `GitDiff.ChangedLines` | internal/gitchange/gitchange.go:213-248 | The loop over the split text computes the reader it is specified by |
| `GitDiff.RangesAgree` | internal/gitchange/gitchange.go:266-284 | hunkRange reads back either form git prints a side in, with or without its count |
| `GitDiff.ChangedLinesReadsDiffs` | internal/gitchange/gitchange.go:213-248 | On the text of any zero-context diff: one entry for each surviving file with text, its hunks' added ranges in order, whatever the hunk bodies, sections and names hold |
| `GitNames.HeaderNameReadsGit` | internal/gitchange/gitchange.go:250-264 | headerName reads back every path git prints: plain, quoted with octal escapes, or followed by a tab, with core.quotePath or without |
| `GitNames.GitNameIsOneLine` | internal/gitchange/gitchange.go:250-264 | A path git prints stays on one line |
| `GitNames.GitFilesAreValid` | internal/gitchange/gitchange.go:213-264 | What git prints of a file is a file of the diffs read below, with the path it was printed from, whatever characters its names hold |
| `DiffParser.ParseDiff` | internal/semantic/gitdiff.go:271-341 | The scanner loop computes the parser it is specified by, the last file flushed |
| `DiffParser.HeaderParses` | internal/semantic/gitdiff.go:343-362 | A printed hunk header parses back to its two sides and section |
| `DiffParser.ParseDiffReadsDiffs` | internal/semantic/gitdiff.go:271-341 | On the text of any zero-context diff: every wanted file with its status, hunks and counts |
| `DiffParser.ReadersAgree` | internal/semantic/gitdiff.go:271-378 | On every zero-context diff without trailing carriage returns, for each surviving text file parseDiff wants, changedLines gives the new-side ranges, in order, of the hunks with a positive count that parseDiff keeps in its last change of that path, and in its only one when no other file has the path |
| `DiffLaws.LinesExactlyWhen` | internal/gitchange/gitchange.go:213-248 | changedLines has exactly the surviving text files, and for each exactly the lines its hunks' headers say they wrote |
| `DiffLaws.ChangesExactlyWhen` | internal/semantic/gitdiff.go:271-341 | parseDiff's changes are the wanted files in order, each with its path, status, its hunks' sides, section and added lines, and as many lines added and removed as the headers count |
| `LineRanges.MergeRanges` | runner/mutation.go:589-600 | Covers exactly the input lines; on proper ranges the output is sorted, disjoint and never adjacent |
| `LineRanges.SeparatedUnique` | runner/mutation.go:589-600 | Separated ranges are determined by the lines they cover, so ties in the sort cannot show |
| `LineRanges.ChangedDiff` | runner/mutation.go:606-623 | What it writes is the text of a valid diff: the placeholder, then each file with a line to run, names in order |
| `LineRanges.ChangedDiffReadsBack` | runner/mutation.go:606-623 | changedLines of changedDiff is exactly the nonempty entries of the run plus the placeholder, for arbitrary file names |
| `MutationEntries.Index.CountOccurrence` | runner/mutation.go:749-759 | Counts the lines up to and including one that have its text, only within its function when scoped |
| `MutationEntries.OccurrenceNamesOneLine` | runner/mutation.go:767-775 | An entry with a positive occurrence names at most one line of a file |
| `MutationEntries.FileRanges` | runner/mutation.go:560-586 | A file runs on exactly its changed lines, every line when it has no entry, and every line an accepted entry names |
| `MutationEntries.MutatedLines` | runner/mutation.go:560-586 | Every selected file, and only those, with exactly the lines it runs on, in separated ranges; nil lines run everything |
| `MutationVerdict.MatchEntry` | runner/mutation.go:680-707 | An entry's match: the distinct lines of its survivors in order, and whether any mutant it matches was caught or left unjudged |
| `MutationVerdict.TallyReport` | runner/mutation.go:331-381 | Fails exactly on a report with an unselected file, a mutant run or skipped against its lines, or a status no run ends with; otherwise counts and lists by status and directory |
| `MutationVerdict.DecideMutation` | runner/mutation.go:313-469 | The loops compute the decision the laws below are about, errors included |
| `MutationAnswers.DecidedExactlyWhen` | runner/mutation.go:313-381 | A run is decided exactly when gremlins exited cleanly and wrote a report it can have written for these files and lines, or none and said there was nothing to mutate |
| `MutationAnswers.CountsByStatus` | runner/mutation.go:340-413 | Each count of a judged run is the number of reported mutations it is named for: by status, and for survivors by whether an entry accepts them and the change wrote their line |
| `MutationAnswers.ListsByStatus` | runner/mutation.go:340-469 | The lists hold, in order, each mutant as often as the report does: those not covered, those that timed out, and the unaccepted survivors on unwritten lines |
| `MutationAnswers.ReportedExactlyWhen` | runner/mutation.go:395-413 | A survivor is reported exactly when the change wrote its line and no entry matches it without matching a survivor on another line |
| `MutationAnswers.SurvivorsComeFirst` | runner/mutation.go:395-413 | The reported survivors come first, in the order of their place |
| `MutationAnswers.PlaceExactlyWhen` | runner/mutation.go:652-659 | The order of mutants is by file, then line, then column, then mutator |
| `MutationAnswers.AcceptsExactlyWhen` | runner/mutation.go:709-718 | An entry accepts what it matches exactly when all the survivors it matches are on one line |
| `MutationAnswers.EntryIsStaleExactlyWhen` | runner/mutation.go:414-438 | Of a mutated file, an entry is said to match nothing exactly when it fits no mutation, and to be caught exactly when it fits some and each was killed or timed out after ten seconds |
| `MutationAnswers.AmbiguousExactlyWhen` | runner/mutation.go:414-438 | An entry is ambiguous exactly when its survivors are on more than one line, and those lines are listed |
| `MutationAnswers.TimeoutsDecideExactlyWhen` | runner/mutation.go:440-484 | Over the report's mutations: when a run is incomplete, and of which packages a complete one warns |
| `MutationAnswers.LineExactlyWhen` | runner/mutation.go:560-586 | Which lines a run mutates and which count as written, over ranges, untracked files and entries |
| `MutationAnswers.DescribedLineIsNamed` | runner/mutation.go:749-775 | An entry that gives a line's text, function and occurrence names that line and no other |
| `MutationLaws.OrderDoesNotMatter` | runner/mutation.go:313-469 | The decision is identical for every permutation of the report's files and of each file's mutations |
| `MutationLaws.MatchLines` | runner/mutation.go:680-707 | A match's lines are exactly the lines with a survivor the entry matches, strictly ascending |
| `MutationLaws.EveryMutantIsCounted` | runner/mutation.go:313-469 | Killed, lived, unchanged, accepted, not covered, timed out, not viable and skipped sum to the number of mutants |
| `MutationLaws.CompleteRunsHadTime` | runner/mutation.go:440-464 | A complete verdict with timeouts had a reported limit of at least the floor, and an incomplete one carries a finding |
| `MutationLaws.IncompleteExactlyWhen` | runner/mutation.go:440-446 | A run is incomplete exactly when a timeout's limit is not trusted, or when at least three mutants timed out and every covered one did |
| `MutationLaws.TimeoutsFound` | runner/mutation.go:447-461 | An incomplete run reports exactly the mutants that timed out, each with the reason; a complete one reports none |
| `MutationLaws.WarnedExactlyWhen` | runner/mutation.go:471-484 | A complete run warns of exactly the directories where at least two mutants and at least half of the covered ones timed out |
| `MutationLaws.SurvivorsFound` | runner/mutation.go:395-413 | A survivor is reported exactly when it lived on a changed line and no entry accepts it |
| `MutationLaws.StaleExactlyWhen` | runner/mutation.go:414-438 | An entry for a mutated file is reported as matching nothing exactly when no reported mutant matches it, and as caught exactly when some do and all of them are killed or timed out under a trusted limit |
| `MutationLaws.AcceptedStayJudged` | runner/mutation.go:552-586 | In a judged run no mutant on a line an accepted entry names is skipped |
| `MutationLaws.NeverAmbiguous` | runner/mutation.go:767-775 | An entry with a positive occurrence fits survivors on at most one line and is never reported ambiguous |
| `MutationLaws.LongerIsAskedWhen` | runner/mutation.go:510-528 | A rerun is asked for exactly when a judged run timed a mutant out under a measured limit shorter than the floor |
| `MutationLaws.LongerIsEnough` | runner/mutation.go:510-528 | The coefficient is the least that reaches twice the floor, so a rerun whose coverage takes at least half as long clears the floor |
| `Order.SortForgets` | runner/mutation.go:652-659 | A sort by a total order has one result, whatever order its input came in and however unstable the sort is |
| `Order.AscendingIsStrict` | runner/mutation.go:474-484 | slices.Sorted over a map's keys lists each once, strictly ascending |
| `Paths.UnderIsPrefix` | internal/verify/enumerate.go:65-67 | On clean paths `under` is the prefix order of components: "a/bc" is not under "a/b" |
| `Listing.ListedAt` | internal/verify/enumerate.go:150-153 | Binary search finds a path exactly when it is listed |
| `Listing.PrefixRun` | internal/verify/enumerate.go:158-171 | The listed paths that begin with a prefix are one contiguous run, and the two searches find its ends |
| `Listing.ListedUnder` | internal/verify/enumerate.go:158-171 | Returns exactly the listed paths for which `under` holds, in order when none repeats |
| `FileSet.TreeVisits` | internal/verify/enumerate.go:258-280 | A tree walk visits exactly what is there and has no excluded or skipped directory on its way |
| `FileSet.ExcludingIsFiltering` | internal/verify/enumerate.go:258-280 | Stopping at excluded directories leaves out exactly the paths an exclude covers and those at or below a .git |
| `FileSetReaders.Reach` | internal/verify/enumerate.go:125-147 | An input is reached unless something above it is a file, and is nested exactly when a directory above it is listed |
| `FileSetReaders.WalkListing` | internal/verify/enumerate.go:173-213 | Visits the trees of exactly the listed, unexcluded paths an input covers, reports it missing only when git lists nothing under it and it is absent, and fails exactly when a listed path lies below a file |
| `FileSetReaders.Walk` | internal/verify/enumerate.go:82-119 | Visits exactly the union of what its inputs visit, and fails exactly when one of them does |
| `FileSetReaders.SnapshotEntries` | internal/verify/fingerprint.go:82-173 | One entry for every visited path, saying what the disk holds there |
| `SnapshotLaws.SnapshotExactlyWhen` | internal/verify/enumerate.go:82-280 | Over the disk and the listing: the snapshot holds exactly what each unexcluded input does, everything at or below it or in the trees of what git lists, or itself when nothing is there, each as the disk has it |
| `SnapshotLaws.FilesystemIsHeld` | internal/verify/enumerate.go:258-280 | Without a listing every path at or below an input that nothing excludes is an entry, and an absent input is recorded missing |
| `SnapshotLaws.ListedIsHeld` | internal/verify/enumerate.go:173-213 | With one, so is every such path in the tree of a listed path the input covers |
| `SnapshotLaws.SameSnapshotSameFiles` | internal/verify/fingerprint.go:82-147 | Disks with equal snapshots hold the same files with the same content wherever an input reaches, so an edit or a removal changes the key |
| `FileSetReaders.VisibleFiles` | internal/verify/visible.go:22-52 | Exactly the regular files the pruned walk visits that are neither private nor below a skipped directory |
| `FileSetReaders.PruningIsFiltering` | internal/verify/visible.go:22-61 | A file a scanner may see is visited by the pruned walk exactly when the walk that stops at most at a skipped root visits it, which is the unpruned walk unless "." is skipped |
| `FileSetReaders.VisibleAreKeyed` | internal/verify/visible.go:10-61 | What a scanner reads is what its key hashed: the visible files are the regular files of the snapshot less private paths and paths below a skipped directory, exactly when no "." is skipped or each of them is reached without going into the root |
| `SnapshotLaws.VisibleExactlyWhen` | internal/verify/visible.go:22-61 | A scanner sees exactly the files its inputs hold but for those with a .git, .env or .env.* component, .env.example aside, and those below a skipped directory |
| `FileSetReaders.SkippedRootShowsNothing` | internal/verify/visible.go:22-52 | With "." skipped, a filesystem walk of the whole source shows no file |

## Left out

- Syntax trees and types: expressions are reduced to what `reading`, `duration` and `measuredCall` tell apart, bodies to their calls, graphs to blocks of stores and mentions; which of a function's stores are statements of its graphs is an input (`DurationFlow.Source`). `polling`, `startsUnder` and the reporting around them are not modelled.
- Protocol: the execution of a check is one step that always ends, and the locks it takes and releases inside it (a tool's install lock, the native executor's mutex) are part of that step.
- Fairness of the polled file lock: exclusion and absence of deadlock are proved, not that a given waiter is served.
- ResultCache.RecordIsCurrent: is stated for a cache directory whose files only these programs write; eviction by hand, record encoding and record size limits are not modelled.
- Discovery: what git lists and ignores, its cancellation and its errors are a value the run returns.
- StatMemo.Shards: bounds the average shard only, as the source does, and takes the encoded size as an input; sizes and limits are never negative.
- FileTimes.SettledEntryIsRight: assumes modification times stamped by the clock at the filesystem's granularity, at most the racy window; tools that set times back, and removed files, are not modelled.
- FileTimes.SureExactlyWhen: lets a torn read return any bytes, as nothing says which of a file's bytes a read meets before a write.
- BaselineRoundTrip.RecordThenApply: is about reports no baseline was applied to, as the program applies a baseline or records one from the report it made.
- Baseline: findings are decoded; details that hold none are one opaque value. Which codes a check selects is a pair of predicates, so `Allowed` and `communityAllowed` are not modelled, and `configuredChecks` and `planned` are inputs. Encoding, validation and line numbers of the file are not modelled.
- MutationVerdict: gremlins' report is decoded and its coverage time parsed; messages are values; the overflow of a time limit, `enclosingFunctions` and `entryLine` are not modelled.
- LineRanges.ChangedDiffReadsBack: leaves out the empty file name, which no selected file has.
- Quoting: which characters print as themselves is any predicate that escapes control characters. Strings are of characters, so bytes that spell none, and `\x` escapes of single bytes from 0x80, are not read.
- GitDiff: strings are sequences of characters; renames and combined diffs, which these commands never ask for, are not part of a diff's text. `parseCommitLog`, `classify` and reading untracked files are not modelled.
- FileSetReaders.VisibleAreKeyed: is for checks without stages or outputs that read no Go toolchain, as every caller of visibleFiles is; the Go loader prunes by other rules.
- FileSetReaders.Walk: has no symlinks, which a key refuses, no case-insensitive spelling, and no visits of omitted ignored paths, which neither reader records; so nothing is claimed of how often an ignored path is visited.
- FileSetReaders.VisibleFiles: returns the files as a set; the sort that follows is the one of `Order`.
- Containers, HTTP, downloads, subprocesses, JSON, regular-expression engines, hashing, rendering, hints, flags and configuration are not modelled.
