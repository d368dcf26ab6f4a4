# Verified models of ElBot's scheduler, file operations and scanners

This project models, in Dafny, the parts of ElBot whose correctness rests on an
argument rather than on one line of code, and proves the properties that argument is
about:

- **The keyed queue** (`internal/signal/queue.go`). `QueueState.dfy` is the queue as a
  state machine with one step for each critical section of its mutex and one for each call
  made outside it; `QueueInvariant.dfy` and `QueueSteps.dfy` hold the inductive invariant,
  `QueueTheorems.dfy`, `QueueCalls.dfy` and `QueueOrder.dfy` what follows for every run: no
  job is stranded, keys exclude each other and take turns, jobs start in admission order,
  every admitted job gets exactly one `Finish`, and shutdown ends. `SignalQueue.dfy` is the queue as an object whose methods update its
  fields, each proved to be the step it implements.
- **Emissions and connections** (`internal/signal/result.go`, `connection.go`,
  `signal.go`). `SignalEmission.dfy` has the two objects, `EmissionRuns.dfy` one emission
  under any interleaving of admission, callbacks, timeouts, refusals and forwarding.
- **The line diff** (`internal/fileops/diff.go`). `LineDiff.dfy` proves the table-driven
  script optimal, `DiffHunks.dfy` proves that the hunks are a patch in both directions.
- **The batch editor** (`internal/fileops/edit.go`, `match.go`, `text.go`).
  `EditBatch.dfy`: splicing sorted edits back to front is one simultaneous substitution.
  `EditText.dfy` and `EditOps.dfy`: line scanning, matching and `ApplyEdits` itself.
  `EditLone.dfy`: what each operation alone does to any text, and batches against them.
  `EditReplaceAll.dfy`: replacing all matches is the plain replace-all. `EditLines.dfy`
  and `EditLineOps.dfy`: on newline-terminated text line operations act on the list of lines.
- **The rollback store** (`internal/fileops/rollback.go`). `RollbackStore.dfy` is the
  bounded store with its cross-indexing and eviction, `RollbackManager.dfy` the object that
  keeps it, `RollbackRuns.dfy` edits and rollbacks interleaved with session switches and
  outside writes, `RollbackKeeps.dfy` what each of these leaves on record, `TargetLocks.dfy`
  the counted per-target locks.
- **Scans against simple definitions.** `ReverseScan.dfy`: the block-wise backwards log
  scan (`internal/logging/reader.go`). `Pager.dfy`: pages of a forked conversation
  (`internal/contextmgr/loader.go`). `Elyph.dfy`, `ElyphGrammar.dfy` and
  `ElyphProblems.dfy`: the ELyph stack parser against a grammar of block forests, and the
  problems it reports against the lines alone (`internal/elyph/parser.go`).

Objects that the source mutates are classes here; a method of such a class is specified by
a function on the value of the object (`View()`), and the properties are proved about those
functions. Pointers that can outlive their entry in a table (lanes, scopes, locks) are
numbers into a list of everything ever made, so that two objects for one key stay apart.
`Options.dfy` has optional values and results, `Basics.dfy` a few notions that several models share.

Two things a reader of the source may not expect. `LoadMessagePage` accepts a cutoff that a
branch inherited from further up, while `loadRawMessages` fails on it; `Pager.RawHistory`
says exactly when the two agree, and `Pager.InheritedCutoffDiffers` gives a fork where they
do not. And the log scan leaves a final carriage return out of a line, and out of its limit,
even when no newline follows it.

## Model

| member | source | states |
|---|---|---|
| QueueTheorems.NoJobStranded | internal/signal/queue.go:132-152 | In every reachable state all workers are running, or those launched but idle are at least the runnable jobs (all of the nil-key lane, one of each ready keyed lane); pending jobs imply a live worker; `pending` is the sum of the lane lengths and within capacity; no more jobs are active than there are workers, and no more workers than the limit. |
| QueueTheorems.ReadyListExact | internal/signal/queue.go:124-131 | A lane is on the ready list, once, exactly when it has jobs and its key is nil or nothing of it is active. |
| QueueOrder.LanesTakeTurns | internal/signal/queue.go:124-131 | In every run a lane at position n of the ready list has a job among the next n + 1 that are started, unless its jobs are taken away: lanes take turns. |
| QueueOrder.SubmitLaunches | internal/signal/queue.go:132-152 | Submitting launches workers up to one for each active job and each job that could run now, or up to the limit, and no more. |
| QueueTheorems.KeysExclude | internal/signal/queue.go:124-131 | Two jobs with the same non-nil key are never active together, even when the lane was dropped and made again between them. |
| QueueTheorems.OneLiveLanePerKey | internal/signal/queue.go:109-113 | At most one lane with jobs or activity exists for a key. |
| QueueTheorems.StartsInAdmissionOrder | internal/signal/queue.go:191-226 | Jobs of one key start in admission order, and nothing still waiting was admitted before a started job of its key. |
| QueueTheorems.DoneMeansDelivered | internal/signal/queue.go:227-231 | `done` is closed exactly when the queue is closed with no workers, pending jobs or finishing calls, and then every admitted job has had exactly one Finish and nothing is active. |
| QueueTheorems.NothingAfterDone | internal/signal/queue.go:227-269 | After `done` only an empty stop is possible: no admission, no start, no Finish. |
| QueueTheorems.AtMostOnce | internal/signal/queue.go:185-219 | Whichever of worker, cancellation and stop reaches a job first, it has at most one run and at most one Finish; only a job that a worker is inside of has run without its Finish, and a job that has run is in no lane. |
| QueueTheorems.RemovedNeverRuns | internal/signal/queue.go:170-184 | A job removed while pending never starts, in any later run. |
| QueueOrder.TakenNeverRuns | internal/signal/queue.go:153-184 | A pending job that is cancelled, or covered by a stop, leaves its lane at once and with it only what the stop covers; it never runs, and has had one Finish when the queue is done. |
| QueueTheorems.DrainJobsRun | internal/signal/queue.go:232-246 | A job that no cancellation and no stop takes from its lane is taken by a worker: when the queue is done it is completed, with one Finish. A stop that is not forced never takes a drain job. |
| QueueCalls.RunsCounted | internal/signal/queue.go:185-219 | In a run a task's Run is called exactly as often as a worker comes to it with a live context, and a worker comes to it at most once. |
| QueueCalls.DrainJobsRunOnce | internal/signal/queue.go:185-219 | A waiting job that no cancellation and no stop takes, and whose context is live when a worker comes to it, has had exactly one run and one Finish when the queue is done. |
| QueueTheorems.StopLeavesTheRest | internal/signal/queue.go:232-269 | After a stop the lanes hold exactly the pending jobs that its policy does not cover. |
| QueueTheorems.ClosedStepDecreases | internal/signal/queue.go:191-269 | Once closed every step but a repeated stop lowers one measure. |
| QueueTheorems.ShutdownBounded | internal/signal/queue.go:232-269 | A run after closing is no longer than the measure at its start. |
| QueueTheorems.ShutdownProgress | internal/signal/queue.go:191-231 | A closed queue that is not done always has a step to take. |
| QueueTheorems.ShutdownEnds | internal/signal/queue.go:232-285 | From every closed reachable state some run of the remaining steps reaches `done`, and with ShutdownBounded none can go on for ever. |
| QueueTheorems.StepKeepsInv | internal/signal/queue.go:72-269 | Each critical section, and each call between them, keeps the whole invariant (lists, counters, conservation, deliveries, start order). |
| QueueTheorems.ReachableInv | internal/signal/queue.go:58-71 | The invariant holds in every state reachable from a new queue. |
| SignalQueue.Queue.constructor | internal/signal/queue.go:58-71 | A new queue is the initial state. |
| SignalQueue.Queue.New | internal/signal/queue.go:58-71 | Negative options are refused, zero ones take their defaults. |
| SignalQueue.Queue.TrySubmit | internal/signal/queue.go:72-123 | The outcome of every admission check, a missing task and an invalid policy first, and on success exactly the submit step. |
| SignalQueue.Queue.ResumeSubmit | internal/signal/queue.go:97-123 | The same after a wait for room: closed, admission over, or the submit step. |
| SignalQueue.Queue.MarkReady | internal/signal/queue.go:124-131 | Lists a lane, or drops it from the table, exactly as the step function says. |
| SignalQueue.Queue.LaunchWorkers | internal/signal/queue.go:132-152 | The loop that stops counting early launches as many workers as the count of all runnable work calls for. |
| SignalQueue.Queue.RemovePendingJob | internal/signal/queue.go:170-184 | Takes one pending job out of its lane, the ready list and the count. |
| SignalQueue.Queue.WorkTop | internal/signal/queue.go:191-212 | The top of the worker loop: the pick step, or retirement. |
| SignalQueue.Queue.WorkBottom | internal/signal/queue.go:220-225 | The bottom of the worker loop: the completion step. |
| SignalQueue.Queue.CancelBegin | internal/signal/queue.go:153-161 | Cancellation claims a job that is still pending and does nothing otherwise. |
| SignalQueue.Queue.EndClaim | internal/signal/queue.go:165-168 | The closing section of cancelPending and of stop. |
| SignalQueue.Queue.StopBegin | internal/signal/queue.go:232-258 | Walking the lanes in any order and removing as it goes amounts to the stop step on the jobs it removed. |
| SignalQueue.PolicyDecides | internal/signal/shutdown.go:5-10 | A job submitted with policy 0 is taken by a stop that drains, one submitted with 1 stays, and a stop that does not drain takes both. |
| SignalQueue.InvIsCallable | internal/signal/queue.go:41-56 | The invariant gives every method of the queue what it needs to be called. |
| SignalEmission.EmissionObject.constructor | internal/signal/result.go:34-57 | A new emission, synchronous or not; one without registrations is complete at once. |
| SignalEmission.EmissionObject.FinishOne | internal/signal/result.go:61-83 | Records a result once, and hands back the completion callbacks with the last one. |
| SignalEmission.EmissionObject.ExitOne | internal/signal/result.go:96-112 | Counts one registration out, and hands back the exit callbacks with the last one. |
| SignalEmission.EmissionObject.AddComplete | internal/signal/result.go:84-93 | Registers a completion callback, or runs it now, never both. |
| SignalEmission.EmissionObject.AddExit | internal/signal/result.go:114-124 | The same for exit callbacks. |
| SignalEmission.FirstWriterWins | internal/signal/result.go:61-74 | The first result of a registration is recorded with its value, its error and whether the task had been started; a second changes nothing, nor does the result of another. |
| SignalEmission.DoneAtLast | internal/signal/result.go:70-78 | `done` is closed exactly when every registration has a result. |
| SignalEmission.ConnectionObject.Acquire | internal/signal/connection.go:21-30 | A task is let in exactly when the connection is open. |
| SignalEmission.ConnectionObject.ReleaseTask | internal/signal/connection.go:31-42 | Lets a task out, and ends a closed connection with the last one. |
| SignalEmission.ConnectionObject.BeginClose | internal/signal/connection.go:46-66 | Closes, cancels the tasks if the policy says so, and ends an idle connection. |
| SignalEmission.ConnectionKept | internal/signal/connection.go:21-66 | However the operations interleave, `done` is closed iff the connection is closed with no tasks: an open one takes a task in, closing keeps those inside until each is released, and once done nothing changes it. |
| EmissionRuns.StepOk | internal/signal/signal.go:184-284 | Every interleaving keeps the accounts: `work` counts the registrations not exited, a connection holds the task exactly while the registration owns it, answered registrations have results. |
| EmissionRuns.ResultsStay | internal/signal/result.go:61-83 | No step changes a recorded result, and a closed `done` stays closed. |
| EmissionRuns.ResultIsFirst | internal/signal/result.go:61-83 | In every run of a synchronous emission a registration is finished exactly when some step has brought it a result, and its result is the first that was brought, by failure, callback, forwarding or timeout. |
| EmissionRuns.SettledMeansComplete | internal/signal/signal.go:184-284 | When the emission's code has nothing left to do, every registration has one result and has exited once, `done` is closed, no task is left in a connection and no callback is left over. |
| EmissionRuns.CanMove | internal/signal/signal.go:197-283 | A registration that has not run its course always has a step to take. |
| EmissionRuns.OwnStepsEnd | internal/signal/signal.go:197-283 | Each own step lowers a measure that timeouts, closings and other emissions leave alone. |
| EmissionRuns.RunOk | internal/signal/signal.go:184-284 | In every run the accounts hold and the emission's code takes at most six steps for each registration and one more. |
| EmissionRuns.CallbacksOnce | internal/signal/result.go:76-124 | In every run the callbacks called and those still registered are the ones registered in the run, once and in order, for completion and for exit, synchronous or not; when the emission has settled all have been called. |
| EmissionRuns.CalledInTime | internal/signal/result.go:34-124 | In every run callbacks wait exactly until the last result, or the last exit; the context is cancelled with the last result, or with the last exit when no results are collected. |
| EmissionRuns.ClosedConnectionEnds | internal/signal/connection.go:31-42 | A closed connection with no foreign tasks is done once the emission is settled. |
| LineDiff.FillTable | internal/fileops/diff.go:94-109 | The table holds the length of a longest common subsequence of every pair of suffixes. |
| LineDiff.DiffLines | internal/fileops/diff.go:93-126 | The backtrace returns exactly the script that the table's comparisons prescribe. |
| LineDiff.ScriptSides | internal/fileops/diff.go:110-125 | Equal and delete lines of the script are the old text, equal and insert lines the new. |
| LineDiff.LcsIsLongest | internal/fileops/diff.go:99-109 | No common subsequence is longer than the table's number. |
| LineDiff.ScriptKeepsLongest | internal/fileops/diff.go:93-126 | The kept lines are a common subsequence, and no common subsequence has more. |
| LineDiff.ScriptIsShortest | internal/fileops/diff.go:93-126 | No script between the two texts has fewer changes. |
| LineDiff.ScriptDeletesFirst | internal/fileops/diff.go:110-125 | Of equally short scripts it is one in which deleted lines come before inserted ones: no insertion is followed by a deletion. |
| DiffHunks.EqualOpsBetween | internal/fileops/diff.go:162-170 | The number of lines kept between two changes, counted op by op. |
| DiffHunks.QuietKept | internal/fileops/diff.go:128-170 | Between two changes with none between them the count is the whole distance, so that it decides whether context joins them. |
| DiffHunks.HunkCounts | internal/fileops/diff.go:196-210 | The numbers of old and of new lines of some ops. |
| DiffHunks.TrimContextRange | internal/fileops/diff.go:172-194 | A hunk's context, starts, counts and ops for a range of changes. |
| DiffHunks.GroupChanges | internal/fileops/diff.go:141-154 | The loop's ranges are the groups of the whole script. |
| DiffHunks.GroupsCut | internal/fileops/diff.go:141-154 | Those groups cover all changes and are cut exactly where more than twice the context separates two of them. |
| DiffHunks.BuildHunks | internal/fileops/diff.go:128-160 | The hunks of a script: one for each group, with its context, starts and ops. |
| DiffHunks.HunkHasContext | internal/fileops/diff.go:172-194 | A hunk runs from its first to its last change with exactly the context around them, less only at the ends of the script, and has the line numbers of its first op. |
| DiffHunks.HunksPatch | internal/fileops/diff.go:128-210 | Replaying the hunks at their old starts and counts over the old lines gives the new lines. |
| DiffHunks.HunksUnpatch | internal/fileops/diff.go:128-210 | Replaying them reversed at their new starts and counts over the new lines gives the old lines. |
| DiffHunks.HunksOrdered | internal/fileops/diff.go:128-160 | Hunks are in order, disjoint and separated. |
| DiffHunks.ChangesInOneHunk | internal/fileops/diff.go:128-160 | Every op that is not equal lies in exactly one hunk. |
| DiffHunks.DiffHunksOf | internal/fileops/diff.go:30-57 | From two texts: a patch both ways, and no hunks exactly when the texts are the same. |
| EditBatch.Validate | internal/fileops/edit.go:348-365 | Accepts exactly the pairwise compatible batches, and else names a conflicting pair. |
| EditBatch.Sort | internal/fileops/edit.go:97-107 | The edits in the order of splicing, none lost. |
| EditBatch.Splice | internal/fileops/edit.go:108-112 | Back-to-front splicing of a compatible batch is one left-to-right substitution over the original text, insertions in batch order and before the text that replaces what starts there. |
| EditLone.TwoSubstituted | internal/fileops/edit.go:97-112 | What two edits that do not overlap make of a text, spelled out: the earlier range first, insertions at one place in batch order, an insertion in front of what replaces the text there. |
| EditText.NormalizeNormalizes | internal/fileops/text.go:95-98 | Normalised text has no carriage return, and normalising is idempotent. |
| EditText.NormalizeLineEnds | internal/fileops/text.go:95-98 | Every line end, of whichever kind, becomes one newline, and nothing else changes. |
| EditText.SplitLinesUnlines | internal/fileops/text.go:159-172 | Splitting newline-terminated lines gives them back. |
| EditText.TerminatedText | internal/fileops/text.go:159-172 | Newline-terminated text is its lines with their newlines. |
| EditText.SplitLinesAre | internal/fileops/text.go:159-172 | The lines of any text hold no newline, and each followed by one they are the normalised text, up to a missing last newline. |
| EditText.ScanLines | internal/fileops/edit.go:295-311 | The scan computes the line ranges of the text. |
| EditText.ScanTiles | internal/fileops/edit.go:295-311 | The ranges tile the text, and only the last may lack its newline. |
| EditText.ScanAgreesWithSplit | internal/fileops/edit.go:295-311 | The texts of the ranges are the lines that SplitLines gives. |
| EditOps.FindContentMatches | internal/fileops/match.go:22-46 | The search loop finds the non-overlapping matches of the normalised needle from the left, and none of an empty one. |
| EditOps.FindLineMatches | internal/fileops/match.go:48-63 | The lines that start with the anchor after their indentation. |
| EditOps.TrimIndentIs | internal/fileops/match.go:48-63 | The indentation that an anchor may follow is the blanks and tabs in front, all of them and nothing else. |
| EditLineOps.AnchoredExactly | internal/fileops/match.go:48-63 | On newline-terminated text the matching lines are exactly those that start with the anchor after their indentation. |
| EditOps.SelectMatches | internal/fileops/match.go:65-87 | Selected are all matches, the one with the given number, or the only one; nothing found, an unresolved choice, a number out of range and a number beside all_matches are told apart. |
| EditOps.ResolveEdit | internal/fileops/edit.go:115-197 | Every operation resolves to the ranges, or fails with the error, that its specification gives. |
| EditOps.ResolutionInText | internal/fileops/edit.go:115-197 | Resolved ranges lie in the text. |
| EditOps.ApplyEdits | internal/fileops/edit.go:63-113 | A batch overwrites, fails with the first error, is refused for an overlap, or substitutes all its edits at once. |
| EditLone.NormalizedFirst | internal/fileops/edit.go:63-67 | A batch does to a text what it does to the normalised text: line ends of the input make no difference. |
| EditLone.RangeOperation | internal/fileops/edit.go:131-161 | A lone replace or delete, on any text: the named lines become the new text, with the newline before an unterminated last line; each range error has its condition. |
| EditLone.InsertAnywhere | internal/fileops/edit.go:141-151 | A lone insert, on any text: in front of the named line, or behind the last, terminated or not, or into an empty text; each error has its condition. |
| EditLone.AnchoredAnywhere | internal/fileops/edit.go:162-193 | A lone anchored operation that selects one line, on any text: its lines before, behind or in place of that line, or the line gone. |
| EditLone.TextOperation | internal/fileops/edit.go:120-130 | A lone replace_text of one occurrence replaces just that occurrence. |
| EditLone.MatchesAreLeftmost | internal/fileops/match.go:22-46 | The matches are the needle, ascend without overlap, and reach over every place where the needle occurs. |
| EditLone.OverwriteOperation | internal/fileops/edit.go:67-75 | A lone overwrite gives its normalised text, exactly when it has a new text and no other field. |
| EditLone.OverwriteAmongOthers | internal/fileops/edit.go:67-84 | An overwrite among several edits fails the batch. |
| EditLone.ValidExactly | internal/fileops/edit.go:200-293 | An edit is valid exactly when it fills in what its operation needs and nothing that it does not use. |
| EditLone.RefusedFor | internal/fileops/edit.go:200-293 | Every refusal for its fields names something that is wrong with the edit: a field its operation needs and lacks, or has and does not use. |
| EditLone.BatchError | internal/fileops/edit.go:77-96 | The error of a batch is that of its first edit which fails alone; a batch whose edits all succeed alone fails only for an overlap. |
| EditLone.EveryText | internal/fileops/edit.go:295-311 | Every normalised text is newline-terminated lines and perhaps a last line without newline. |
| EditReplaceAll.ReplaceTextAll | internal/fileops/edit.go:120-130 | A lone replace_text with all matches is never refused and is the left-to-right replace-all of the normalised text, failing exactly when nothing matches. |
| EditReplaceAll.MatchesAscend | internal/fileops/match.go:22-46 | Matches ascend and do not overlap. |
| EditReplaceAll.AllReplacedValid | internal/fileops/edit.go:348-365 | Validation never refuses the matches of one needle. |
| EditLines.SubstituteEditsLines | internal/fileops/edit.go:108-112 | Substituting the ranges of line edits edits the list of lines. |
| EditLines.CompatibleImages | internal/fileops/edit.go:348-365 | The ranges of line edits conflict exactly when the edits take a common line or one inserts strictly inside what another removes. |
| EditLineOps.BlockLinesAre | internal/fileops/edit.go:313-319 | The lines of a new text are its own, whether or not its last one ends in a newline. |
| EditLineOps.LineBatch | internal/fileops/edit.go:63-197 | A batch of line operations on newline-terminated text fails as its line edits fail or clash, and else splits into exactly the edited list of lines. |
| EditLineOps.InsertOperation | internal/fileops/edit.go:141-151 | A lone insert puts its lines in front of the line it names, or at the end. |
| EditLineOps.DeleteOperation | internal/fileops/edit.go:152-161 | A lone delete leaves every line but those it names. |
| EditLineOps.AnchoredOperation | internal/fileops/edit.go:162-193 | A lone anchored operation applies at each selected line, at no other, and is never refused. |
| RollbackStore.WithoutInv | internal/fileops/rollback.go:281-285 | Removing a record keeps indexes and byte count. |
| RollbackStore.ForgetInv | internal/fileops/rollback.go:95-111 | Forgetting a binding keeps the invariant and leaves no scope for it. |
| RollbackStore.OpenedInv | internal/fileops/rollback.go:113-132 | A session keeps the invariant, and its lease is valid and that of the binding's scope. |
| RollbackStore.PublishedInv | internal/fileops/rollback.go:246-279 | Publishing keeps the invariant and ends within both limits. |
| RollbackStore.EvictionLeavesNewest | internal/fileops/rollback.go:267-276 | Eviction always finds a victim, ends, and leaves the longest run of newest IDs that fits both limits. |
| RollbackManager.Manager.ForgetLocked | internal/fileops/rollback.go:102-111 | The loop over a scope's files, in any order, forgets just that binding. |
| RollbackManager.Manager.Session | internal/fileops/rollback.go:114-132 | No lease without a valid binding; else invalid bindings are reclaimed and the lease is for the binding's current scope. |
| RollbackManager.Manager.Evict | internal/fileops/rollback.go:267-276 | The loop computes the evicted store and counts what it evicted. |
| RollbackManager.Manager.Publish | internal/fileops/rollback.go:249-278 | An expired lease publishes nothing; else the store is the published one, the record is reported available exactly if it survived, and the number evicted is what the store lost. |
| RollbackManager.Manager.LoadRecord | internal/fileops/rollback.go:452-510 | Every refusal and its error, in order, or the record. |
| RollbackManager.LoadedRecord | internal/fileops/rollback.go:452-510 | A loaded record belongs to the lease and target, is still held, has the expected ID, both its path and the given one lead to the target, and the file has its edit's size and revision. |
| RollbackManager.ExpiredLease | internal/fileops/rollback.go:78-83 | A lease has expired exactly when its binding is not valid or names another scope. |
| RollbackManager.RecordRefused | internal/fileops/rollback.go:452-510 | Through a lease in force each refusal has its condition, in order, spelled out on the links and the file; otherwise the record is loaded. |
| RollbackRuns.StepOk | internal/fileops/rollback.go:95-510 | Every interleaving of edits (read before or after the lock, from wherever the path then led), rollbacks, session switches and outside writes keeps store, files and history in agreement. |
| RollbackRuns.RunFits | internal/fileops/rollback.go:267-276 | In every run from a new manager the store stays within both limits. |
| RollbackRuns.WriteReplacesRead | internal/fileops/rollback.go:201-240 | A write replaces what the edit has read, by size and revision, or makes a file where there was none, where the path leads and through a lease in force, and touches no other file. |
| RollbackRuns.PublishRecords | internal/fileops/rollback.go:249-266 | The published record has the edit's path and target, what it read with its revision, and size and revision of what it wrote. |
| RollbackRuns.CommitRestores | internal/fileops/rollback.go:365-417 | A rollback that succeeds puts back what the recorded edit had read (nothing if that edit made the file), only over a file of that edit's size and revision, with both paths leading there, through a lease in force, and uses the record up. |
| RollbackRuns.EditThenRollback | internal/fileops/rollback.go:164-417 | With revisions that tell contents apart, a rollback leaves the file as the write of the recorded edit found it. |
| RollbackRuns.RollbackUndoesWrite | internal/fileops/rollback.go:164-417 | For every rollback that commits in a run there is an earlier write of that run to the same target: the file is what that write left and becomes what it found, as far as size and revision tell. |
| RollbackRuns.RollbackRestoresBytes | internal/fileops/rollback.go:164-417 | With revisions that tell contents apart the bytes are exactly those. |
| RollbackRuns.RollbackSucceeds | internal/fileops/rollback.go:346-417 | With a lease in force, a free target, its record on file, both paths leading there and a file of the recorded size and revision, the steps of a rollback are possible in turn, restore the backup and use the record up. |
| RollbackRuns.RestoredOnce | internal/fileops/rollback.go:392-412 | In no run is a record restored twice. |
| RollbackRuns.ForgottenLeaseStaysDead | internal/fileops/rollback.go:78-83 | A lease once forgotten never becomes current again, and no rollback commits through it. |
| RollbackRuns.ForgettingEndsLease | internal/fileops/rollback.go:95-111 | Forgetting a binding ends the lease of its scope. |
| RollbackRuns.LockKeepsFile | internal/fileops/rollback.go:287-311 | While a call holds a target, only it or an outside write changes the file. |
| RollbackRuns.PublishIsLogged | internal/fileops/rollback.go:249-266 | Publishing records that under the next ID. |
| RollbackKeeps.StepKeepsRecords | internal/fileops/rollback.go:95-132 | Every step but a publication leaves exactly the records it should: forgetting drops those of its binding only, opening a session those of bindings that are not valid, a commit the one it restored. |
| RollbackKeeps.StepKeepsLeases | internal/fileops/rollback.go:78-132 | A scope loses its binding when that is forgotten or found not to be valid as a session is opened, and at no other step. |
| RollbackKeeps.StepKeepsLocks | internal/fileops/rollback.go:287-311 | A call holds its target from its first step to the one that ends it: it begins only while no call holds that target, and no other step gives a target up. |
| RollbackKeeps.PublishKeeps | internal/fileops/rollback.go:255-276 | A publication puts its record in place of the one for the same scope and target, and then gives up the oldest records, as few as the limits allow. |
| RollbackKeeps.PublishAvailable | internal/fileops/rollback.go:267-278 | The backup of an edit is available exactly when by itself it is within the limits. |
| RollbackKeeps.EditSucceeds | internal/fileops/rollback.go:164-279 | With a lease in force, a free target and the path leading to the file that is there, the steps of an edit are possible in turn, write the file, and record what was there. |
| RollbackKeeps.EditAndRollback | internal/fileops/rollback.go:164-417 | An edit and then its rollback with nothing between leave every file as it was. |
| TargetLocks.Table.Take | internal/fileops/rollback.go:287-295 | The entering section finds or makes the lock object and counts a user. |
| TargetLocks.Table.GiveBack | internal/fileops/rollback.go:296-303 | The leaving section counts a user out and drops the entry at zero. |
| TargetLocks.StepKeepsInv | internal/fileops/rollback.go:287-311 | `users` is holders plus waiters plus releases in progress, and the map names exactly the locks with users, under every interleaving of the two-step release. |
| TargetLocks.MutualExclusion | internal/fileops/rollback.go:304-306 | Two callers never hold the lock of one target. |
| TargetLocks.OneLockPerTarget | internal/fileops/rollback.go:288-302 | Two live lock objects are never for one target, and a target is in the map exactly while some caller uses its lock. |
| TargetLocks.WaiterCanAcquire | internal/fileops/rollback.go:304-310 | A waiter can go on exactly when nobody holds its lock. |
| TargetLocks.RunsOfOneLock | internal/fileops/rollback.go:287-311 | The runs of the table are exactly those that one lock for each target allows, and each caller stands where its own steps have put it. |
| ReverseScan.Scanner.Scan | internal/logging/reader.go:255-319 | For every block size, unless the context or a read breaks it off, the scan visits and returns exactly what walking the lines backwards does; broken off it has visited a part of that. The context is looked at once before the scan and on both sides of every read and visit, and the first look that finds it ended ends the scan; a read that got less than its block, or failed, ends it with its error. |
| ReverseScan.Scanner.ReadAt | internal/logging/reader.go:284-292 | The bytes that a read delivers are those of the file at its offset. |
| ReverseScan.Scanner.LineDone | internal/logging/reader.go:268-279 | Visiting a gathered line, and what it leads to. |
| ReverseScan.SeenByte | internal/logging/reader.go:304-314 | A byte more extends the line, or makes it too long exactly when the whole line is. |
| ReverseScan.WalkIsPrefix | internal/logging/reader.go:252-254 | Whatever the visitor answers, it sees a prefix of the lines from the newest back. |
| ReverseScan.WalkExactly | internal/logging/reader.go:252-319 | How a walk ends, by the lines, answers and limit: it visits from the last line back while lines fit and the answer is to go on, and ends with the visitor's error or stop, a line too long, or the first line. |
| ReverseScan.PhysicalLinesAre | internal/logging/reader.go:293-318 | The lines hold no newline, and each followed by one they are the content, up to a missing last newline. |
| ReverseScan.WalkSeesAll | internal/logging/reader.go:252-254 | A visitor that never stops sees every line exactly when none is too long. |
| Pager.FindSpans | internal/contextmgr/loader.go:145-180 | The walk up the forks fails as the history does, and else finds ranges whose conversations, newest first, are the history's. |
| Pager.Collect | internal/contextmgr/loader.go:187-203 | The loop over the ranges takes the wanted window of all of them together. |
| Pager.ReverseInPlace | internal/contextmgr/loader.go:204-206 | The two indices turn the page round in place. |
| Pager.LoadMessagePage | internal/contextmgr/loader.go:144-207 | A page is the right slice of the conversation messages of the whole history, with the ceiling quotient of pages; a page past the end is empty. |
| Pager.RawHistory | internal/contextmgr/loader.go:113-135 | The raw history loads exactly when the paged one does and no cutoff is inherited, and then they are the same. |
| Pager.UpTo | internal/contextmgr/loader.go:92-111 | A cutoff keeps the messages up to the first with its ID, all of them without one, and fails exactly when no message has it. |
| Pager.ChainLoads | internal/contextmgr/loader.go:113-156 | A chain of forks loads, either way, exactly when it has at most 33 sessions. |
| Pager.InheritedCutoffDiffers | internal/contextmgr/loader.go:164-169 | Where they do not agree: a fork at a message the parent only inherited has a paged history and no raw one. |
| Pager.PagesAreWhole | internal/contextmgr/loader.go:178-207 | The pages from the last to the first are the conversation, each message once, every page but the last full. |
| Pager.ConversationPlaces | internal/contextmgr/loader.go:161-192 | The conversation is the messages at ascending places, a place being among them exactly when its message is a conversation message. |
| Pager.PagesHoldConversation | internal/contextmgr/loader.go:178-207 | A message is on some page exactly when it is in the history and is a conversation message. |
| Pager.PagesOfRaw | internal/contextmgr/loader.go:113-207 | Paging through a history that loads raw gives back its conversation messages. |
| Pager.EndlessForksFail | internal/contextmgr/loader.go:113-156 | Sessions each forked from another of them, cyclic ones included, are given up at the depth bound by both loaders, whatever other sessions there are. |
| Elyph.ParseDocument | internal/elyph/parser.go:87-98 | The parser object computes the parse of all lines. |
| Elyph.ParserObject.ParseLine | internal/elyph/parser.go:100-120 | One line: header, closing brace, or a counted statement. |
| Elyph.ParserObject.ParseStatementContent | internal/elyph/parser.go:123-159 | One statement, and when it forgets the block closed last. |
| Elyph.ParserObject.RejectStepContext | internal/elyph/parser.go:343-357 | Refuses a step inside a step, else one whose name is used. |
| Elyph.ParserObject.CloseBlock | internal/elyph/parser.go:407-424 | Pops a block and checks a step block's statements. |
| ElyphGrammar.ForestParses | internal/elyph/parser.go:100-159 | The lines of a well-formed forest parse without a problem, with the counts and steps of the forest. |
| ElyphGrammar.RunReads | internal/elyph/parser.go:227-238 | A run without a problem has read a header and a stack of well-formed partial forests. |
| ElyphGrammar.Accepts | internal/elyph/parser.go:87-98 | No problem is found iff the document is the expected header and the flattening of a well-formed forest with distinct step names. |
| ElyphGrammar.ListsSteps | internal/elyph/parser.go:299-341 | Of such a document the parser lists the forest's steps in order. |
| ElyphGrammar.ForestUnique | internal/elyph/parser.go:426-429 | A document has only one header and one forest. |
| ElyphProblems.Reports | internal/elyph/parser.go:87-444 | For every document, well formed or not, the problems reported are exactly those that each line has after the lines before it, in order, then those of the end; the steps listed are those outside other steps, each name at its first use. |

## Left out

- Goroutines, channels, contexts, timers: they are steps that may happen at any time. `Queue.Close` waiting for its context is not modelled, only the two stops it makes.
- SignalQueue.Queue.StopBegin: a stop's cancelling of the contexts of active tasks is left out, as are calls of a task's own `cancel` function and panics of callbacks; a task that has been cancelled returns like any other.
- The waiting room of `Submit` as a condition variable: a submit that has to wait is modelled by its end (`ResumeSubmit`).
- QueueTheorems.ShutdownEnds: tasks that never return keep a queue from ending; the lemma says that a run to `done` exists and ShutdownBounded that no run goes on for ever, not that a scheduler is fair.
- Recursion checks, required receivers and options of `emit`; forwarding to another signal appears as the child's answer and exit.
- EmissionRuns.StepOk: a timeout is allowed at any time for a registration that was not refused before it was acquired, which includes more moments than `AfterFunc` has.
- DiffHunks.DiffHunksOf: rendering of diffs, the size limits that replace a diff by a notice, and negative context lines, which callers normalise away.
- Trimming and case folding of operation names, error texts, match previews.
- `sort.SliceStable` is an insertion sort here; with distinct batch numbers the order is total, so any sort gives the same list.
- Strings are sequences of characters where the source has bytes; encodings, byte order marks and line-ending restoration are not modelled.
- EditLineOps.LineBatch: `replace` is not among its line operations, because it adds no newlines, nor is text without a final newline covered there; `EditLone.dfy` states both for operations alone, and `EditBatch.Splice` for batches on the ranges.
- Symlink resolution, file modes, access checks, atomic renames and `Preview` of rollbacks; the check of a file's stat information and the write that follows it are one step.
- RollbackRuns.CommitRestores: the stat information that is compared before a write is one stamp that every write changes; a change that leaves identity, size, mode and time alone would go unnoticed by the code.
- RollbackRuns.EditThenRollback: revisions are any function on contents; that they tell contents apart is a hypothesis of this lemma and of RollbackRestoresBytes only. RollbackUndoesWrite says what holds without it.
- RollbackRuns.RollbackSucceeds: the steps follow each other without interference; with interference a rollback may be refused.
- RollbackManager.Manager.LoadRecord: refusals by `checkWrite`, by the context and of files that are not regular.
- RollbackRuns.StepOk: an edit without a session publishes nothing and counts as an outside write. What an edit reads is any content, whenever and wherever it was read.
- The listing of a scope's records.
- ReverseScan.Scanner.Scan: block size and line limit are parameters, and the visitor's answers, cancellations and read faults are given as lists.
- Pager.LoadMessagePage: page and page size are positive, which its callers see to; failures of the database other than missing rows are not modelled, nor is a store that changes between two reads. Context summaries are left out.
- Character-level ELyph syntax: lines come as tokens, malformed ones included; warnings and line numbers are not modelled.
