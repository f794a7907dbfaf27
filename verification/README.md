# Verified model of rrjj's recording and publication core

rrjj records a directory as a chain of snapshots and publishes the recording twice: locally, as a session
directory a reader can open at any time, and remotely, as a Git ref plus a stream of HTTP event batches.
This project models the parts of rrjj that have to stay correct when something fails halfway, and proves
what they guarantee.

## What is modelled

* **Audit accumulator and coordinator** (`Audit.dfy`, `Tables.dfy`, `Coordination.dfy`, `Coordinator.dfy`). Watcher
  notifications are folded into a bounded accumulator, drained into the coordinator's own bounded window,
  and emitted through a sink that may refuse any event. A captured snapshot that was not accepted is held
  and retried verbatim. `Coordination` is the specification, one function per operation over the whole
  system state; the classes in `Coordinator.dfy` and `Audit.dfy` have the source's fields and loops, and
  every method is proved to do what the function of the same name says. The environment is arbitrary: any
  notifications before any drain, any contents of the watched tree, any outcome of every emit, capture and
  flush.
* **Whole sessions** (`Moves.dfy`, `Chain.dfy`, `Overflow.dfy`, `Windows.dfy`, `Marks.dfy`, `Session.dfy`,
  `Notices.dfy`, `Readings.dfy`, `Answers.dfy`, `Stranding.dfy`, `History.dfy`, `PathLimit.dfy`,
  `LimitWitness.dfy`). Each command is shown to be a sequence of guarded moves, invariants are proved move by
  move, and the theorems follow for every session; what each command answers is stated beside them.
* **Recorder** (`Recorder.dfy`). The projection of a tree difference to listed changes, and replaying it.
* **Remote publication** (`Batching.dfy`, `Http.dfy`, `Delivery.dfy`, `HttpClient.dfy`, `Git.dfy`, `Remote.dfy`,
  `RemoteAnswers.dfy`, `DurableSink.dfy`). Greedy batching, delivery to an honest receiver that keeps a
  contiguous prefix, the compare-and-swap of the recorder ref, and their composition, driven by the flush
  requests of any session: what holds at every moment, and exactly when a flush succeeds.
* **Journal and reader** (`Journal.dfy`, `JournalRun.dfy`, `JournalSink.dfy`, `Reader.dfy`). The bytes of the
  journal, both parsers, the sink with writes that fail partway, and the reader's lookups.
* **Local publication** (`Mirror.dfy`, `Mirroring.dfy`, `Local.dfy`, `LocalAnswers.dfy`, `Watermark.dfy`,
  `DirectorySink.dfy`, `EndToEnd.dfy`).
  The repository mirror and the session directory as histories of single file operations, with a crash or
  a concurrent reader anywhere; and the path from the recorder to the reader.

Object ids are modelled as the content they name (a commit is its parent and its tree, an operation is its
parent and its commit), so "fresh" and "ancestor" are facts about values, not assumptions.

## Where the code and its documentation part

* A `Snap` on a clean window whose event is refused leaves a held event with nothing pending. The next mark,
  flush or shutdown then skips its loop and takes the held event's number, after which every snapshot fails.
  `Stranding.InStepExactly` says which sessions this happens to, `Stranding.LostForever` that it is final,
  `Stranding.WitnessLost` gives a two-command session.
* `schema/v0.md` (lines 80-82) says every overflow forces a full scan before a later mark. The coordinator's
  own path limit queues an overflow without forcing one. `PathLimit.FullScanExactly` says exactly when a scan is
  full; `LimitWitness.MarkWithoutFullScan` gives a session of four commands that breaks the promise.
* If a push lands but the sink forgets it (its answer is lost, or its cursor is not written before a restart),
  every newer commit is refused until the landed one is published again. `Git.RefusedExactly` gives the exact
  condition over all runs of a sole writer, `Git.ForgottenPushes` both inputs.
* If the manifest is renamed into place and the directory sync fails, a later update may restore an older
  watermark. `Local.SessionAlwaysReadable` proves consistency, `Watermark.MonotonicExactly` says exactly which
  histories are monotonic, `Watermark.WatermarkGoesBack` gives a run from watermark 2 to 1.
* If writing a journal line fails after bytes reached the file, the journal no longer reads back as its accepted
  events, whatever is emitted next. `JournalRuns.ReadsBackExactly` gives the exact condition over all runs.
* The mirror takes a source file named like another file's temporary for a leftover.
  `Mirror.MirrorsExactly` gives the exact condition, `Mirror.TemporaryNameLost` a source.

## Model

| member | source | states |
|---|---|---|
| Remote.ContentBeforeEvents | crates/rrjj-sinks/src/durable.rs:52-104 | content before events: at every moment of every session, under lost answers, failures, exhausted retries and restarts, the receiver holds a prefix of the accepted events and every snapshot commit it knows of is the ref's tip or an ancestor of it, if only this sink moves the ref |
| Remote.SuccessfulFlushDelivers | crates/rrjj-sinks/src/durable.rs:52-104 | a flush request that succeeds leaves the ref at the requested checkpoint, and the receiver with all events so far and a durable watermark at the target |
| Remote.CarefulFlushPublishesNewest | crates/rrjj-core/src/lib.rs:560-588 | after a successful flush that strands nothing the ref is at the commit of the newest snapshot (or baseline) and the receiver holds the whole log |
| RemoteAnswers.AnswerExactly | crates/rrjj-sinks/src/durable.rs:52-104 | in every session of a sole writer a remote flush succeeds if and only if the journal can be synced, ref and cursor can be used, the ref holds the checkpoint already or the push lands and no earlier push is forgotten, and the network's answers deliver what the client does not know to be delivered |
| RemoteAnswers.HealthyFlushesSucceed | crates/rrjj-sinks/src/durable.rs:52-104 | if nothing fails and no event is too large for a batch, every flush request of every session succeeds, restarts or not |
| RemoteAnswers.RemoteFlushHappens | crates/rrjj-sinks/src/durable.rs:52-104 | a session whose remote flush succeeds, so the results about successful flushes apply |
| RemoteAnswers.RunCheckpoints | crates/rrjj-core/src/lib.rs:570-588 | in every session each requested checkpoint equals or descends from those requested before |
| Remote.FlushKeeps | crates/rrjj-sinks/src/durable.rs:52-104 | one flush, in any world, keeps prefix, watermark and content-first invariants; success means complete delivery |
| Local.SessionAlwaysReadable | crates/rrjj-sinks/src/local.rs:161-186 | crash and reader safety: a manifest read at any moment and files read at any later moment give exactly the accepted events 0 to the watermark, and every immutable file the durable operation needs is present with its true content |
| Local.ImmutableForever | crates/rrjj-sinks/src/local.rs:243-290 | no event object and no immutable repository file is ever changed or removed, each event object is exactly the journal up to its number, and the spool is the accepted events within its limit |
| Local.FlushInv | crates/rrjj-sinks/src/local.rs:198-290 | a flush that stops after any number of file operations keeps every promise made by the manifest on disk and the one in memory; success makes the new manifest visible |
| Local.EmitInv | crates/rrjj-sinks/src/local.rs:137-188 | an emit that stops anywhere, including in the middle of a line, keeps every promise of the directory |
| Local.ManifestSteps | crates/rrjj-sinks/src/local.rs:292-304 | a manifest update cut off after any step keeps the session readable, and shows the new manifest once renamed |
| Local.ImmutableMirrored | crates/rrjj-sinks/src/local.rs:306-396 | after a successful mirror every immutable source file is in place with its true content, whatever the listing order and whatever else is in the source |
| Watermark.MonotonicExactly | crates/rrjj-sinks/src/local.rs:161-240 | over the whole history of a session directory the watermark on disk never decreases if and only if no flush failed right after renaming a new watermark into place and was followed, before another flush's rename, by an accepted emit that renamed its manifest |
| Watermark.WatermarkGoesBack | crates/rrjj-sinks/src/local.rs:170-240 | a run of four events and two flushes, orderly throughout, that shows watermark 2 and later watermark 1 |
| Watermark.AheadExactly | crates/rrjj-sinks/src/local.rs:233-237 | the disk shows more than the sink remembers exactly when such a flush happened and no manifest was renamed since |
| EndToEnd.FlushedSessionIsReadable | crates/rrjj-reader/src/lib.rs:107-219 | end to end: after a successful flush that strands nothing, the reader opens all accepted events, looking up the durable operation returns the newest snapshot, its objects are present, and it records what was in the watched tree at a moment after the arrival of every notification drained before the flush event |
| LocalAnswers.FlushExactly | crates/rrjj-sinks/src/local.rs:198-290 | a covering flush succeeds if and only if no write has failed, the spool can be synced, the repository is mirrored, the event object exists or is copied, the cursor is written, and the manifest is renamed and synced |
| LocalAnswers.EmitExactly | crates/rrjj-sinks/src/local.rs:137-188 | an event is accepted if and only if no write has failed, there is room for it, and its line is written |
| LocalAnswers.FailedExactly | crates/rrjj-sinks/src/local.rs:115-132 | the sink has failed for good if and only if some line that had room was not written |
| LocalAnswers.LocalFlushHappens | crates/rrjj-sinks/src/local.rs:198-290 | a session that meets every hypothesis of the end-to-end guarantee |
| Local.ManifestsObserve | crates/rrjj-sinks/src/local.rs:161-169 | every manifest ever shown states a position the log has reached and the newest operation named up to it |
| EndToEnd.SinkFollows | crates/rrjj-sinks/src/local.rs:137-240 | driven by any session, the directory sink gets the next event or a covering flush each time, and accepts exactly the session's log |
| DirectorySinks.DirectorySessionSink.Emit | crates/rrjj-sinks/src/local.rs:137-188 | the method changes memory and directory exactly as the small-step model says, including torn writes and failed manifest updates |
| DirectorySinks.DirectorySessionSink.FlushSession | crates/rrjj-sinks/src/local.rs:198-240 | the method, mirroring the repository file by file, is one of the flushes the small-step model allows |
| DirectorySinks.SessionDirectory.WriteManifest | crates/rrjj-sinks/src/local.rs:292-304 | temporary, rename, sync: the states the directory goes through, and success exactly when all steps succeed |
| DirectorySinks.SessionDirectory.CopySpool | crates/rrjj-sinks/src/local.rs:269-277 | an existing event object is left alone; otherwise a copy appears under its name only when whole |
| Mirror.MirrorsExactly | crates/rrjj-sinks/src/local.rs:306-416 | a successful sync equals the source at every source file if and only if existing immutable names agree and no source file is named like the temporary of a file listed after it that must be copied |
| Mirror.DirAt | crates/rrjj-sinks/src/local.rs:306-364 | the destination after a sync, path by path, in closed form, by induction over the nested source; paths outside the directory are untouched |
| Mirror.SecondSyncChangesNothing | crates/rrjj-sinks/src/local.rs:306-416 | right after a sync that left every source file and directory in place, a second one changes nothing |
| Mirror.PresentWithoutTemporaries | crates/rrjj-sinks/src/local.rs:378-389 | without a file `x` beside an entry `x.rrjj-sync-tmp` a sync leaves everything in place, whatever the listing order |
| Mirror.OnlyImmutableExtras | crates/rrjj-sinks/src/local.rs:351-362 | after a successful sync, in every source directory at any depth, extra files survive only under immutable names, and no temporary is left over unless the source has an entry of its name |
| Mirror.ImmutableStaysInDir | crates/rrjj-sinks/src/local.rs:373-396 | a sync never removes or rewrites what an immutable name holds |
| Mirror.NoTemporariesSuffices | crates/rrjj-sinks/src/local.rs:378-389 | without such names no source file is lost, whatever the destination and the listing order |
| Mirror.TemporaryNameLost | crates/rrjj-sinks/src/local.rs:501-508 | a source of two files where the second one's copy removes the first |
| Mirror.TempNeverImmutable | crates/rrjj-sinks/src/local.rs:418-479 | a temporary never has an immutable name |
| Mirroring.Destination.SyncTree | crates/rrjj-sinks/src/local.rs:306-364 | whatever fails, every single step keeps immutable names; success leaves exactly the specified result, handles each source file once, marks every changed directory dirty, and only reuses when nothing is left to do; without failing operations it succeeds exactly if there is no link and nothing is in the way |
| Mirroring.Destination.SyncFile | crates/rrjj-sinks/src/local.rs:366-416 | one file: reused if in place, else linked or copied if immutable, else replaced if something is there or copied; exactly that counter and the bytes move; without failing operations it succeeds exactly if no directory is in the way |
| Mirroring.Destination.Sweep | crates/rrjj-sinks/src/local.rs:351-362 | removes exactly the extra files that are not immutable |
| Sessions.EventStream | crates/rrjj-core/src/lib.rs:590-600 | accepted events are numbered 0, 1, 2, ... in one session, start with the only session start, and chain: each snapshot's parent is the snapshot (or baseline) before it; the counter is their number |
| Sessions.CapturedExactlyOnce | crates/rrjj-core/src/lib.rs:466-502 | captured operations are the baseline, the accepted snapshots and the held one, in order, none twice and none skipped |
| Readings.SnapshotsReadTheDisk | crates/rrjj-core/src/lib.rs:849-899 | every snapshot of every session, accepted or held, and the baseline record exactly what was in the watched tree when their own capture read it, at strictly increasing times |
| Sessions.FlushRequestsCover | crates/rrjj-core/src/lib.rs:570-588 | every flush request targets the flush event that ends the log and a checkpoint at or after every snapshot commit in it |
| Sessions.OverflowForcesFullScan | crates/rrjj-core/src/lib.rs:443-449 | after an accumulator overflow event, no mark, flush or end is accepted before a snapshot whose capture was a full scan made after it, through any failures and retries |
| Sessions.TouchedPathsRefineUnion | crates/rrjj-core/src/lib.rs:504-527 | each touched_paths event reports exactly the table of the batches drained since the previous one; an operation is missing only if its path is not in the full report or was not in its full batch, nothing else is reported, and if a path was turned away a path-limit overflow came first |
| Sessions.NothingObservedIsLost | crates/rrjj-core/src/lib.rs:136-159 | in every state accumulator and coordinator hold exactly the tables of the touches not yet drained and of the batches not yet reported, have noted the limit exactly when they turned a path away, and raw counts are conserved below 64-bit saturation |
| Sessions.PostsAreTimely | crates/rrjj-core/src/lib.rs:452-464 | at each mark, flush and end every drained batch has been reported and every drained notification was followed by a capture; flush and end state their own position and the true snapshot count |
| Sessions.ExecInv | crates/rrjj-core/src/lib.rs:368-411 | every command, from every reachable state and with any failure, keeps all session invariants; only a stranding command can break the naming ones |
| Answers.ResumeSettles | crates/rrjj-core/src/lib.rs:390-402 | a resume that succeeds leaves nothing pending: window and queue empty, everything drained reported, announced and followed by a capture, watching not paused; and it succeeds when nothing fails and the held event is in step |
| Answers.AcceptingAnswers | crates/rrjj-core/src/lib.rs:368-411 | when nothing fails any more and the held event is in step, every command succeeds, however many notifications still arrive |
| Answers.CommandsWrite | crates/rrjj-core/src/lib.rs:368-411 | in every session the marks carry the tags of exactly the mark commands that succeeded, in order; at most one end is written, with its shutdown's reason; and watching is paused exactly between a pause and the next resume |
| Answers.ShutdownIsFinal | crates/rrjj-core/src/lib.rs:404-411 | after a shutdown no later command succeeds or changes anything |
| Sessions.RunConfigured | crates/rrjj-core/src/lib.rs:329-366 | no command changes the session's id or its limit on listed changes |
| Notices.NoticesConserved | crates/rrjj-core/src/lib.rs:424-450 | in every state of every session the notices that the notifications and the path limits called for are, in order and with source and count, those of the accepted overflow events followed by those queued, and the accumulator holds those since the last drain; every touched_paths event states when its window began and its raw count; a capture is a full scan exactly when one is due; at each mark, flush and end all notices are announced and no snapshot is due; and the flags say exactly what is due |
| Notices.DrainedExactly | crates/rrjj-core/src/lib.rs:197-213 | after any notifications a drain brings the bounded table of their touches, the capped sum of their raw counts, the first observation's time, and exactly the notices they call for: the losses up to the report limit, and one more exactly if a path was turned away |
| Notices.MergedQueue | crates/rrjj-core/src/lib.rs:424-450 | a merge queues the coordinator's own notice exactly when it turns away the first path of a window, then the drained ones, and sets counts, start and flags accordingly |
| Notices.WindowReports | crates/rrjj-core/src/lib.rs:161-181 | between drains the accumulator holds the losses in order, at most 63 as they are and one for all the rest, and the time of the first observation |
| Chain.OpsDistinct | crates/rrjj-core/src/lib.rs:849-899 | no operation is emitted twice: operations get strictly deeper along the log |
| Chain.MoveChain | crates/rrjj-core/src/lib.rs:466-502 | each step keeps the link between log, held event, recorder and flush requests |
| Moves.ExecMoves | crates/rrjj-core/src/lib.rs:368-411 | every command is a sequence of guarded moves; a command that does not strand never numbers an event while another is held |
| OverflowObligation.MoveDebt | crates/rrjj-core/src/lib.rs:466-502 | each step keeps the overflow obligation: what is still owed is recorded in the pending and full-scan flags or the held event |
| Windows.MoveWindows | crates/rrjj-core/src/lib.rs:424-450 | each step keeps the two-stage accounting: both tables exact, limits noted exactly, raw counts conserved |
| Windows.LimitSeenMeans | crates/rrjj-core/src/lib.rs:434-441 | a noted limit means an accepted path-limit overflow since the last touched_paths event |
| Marks.SeenMeans | crates/rrjj-core/src/lib.rs:452-464 | the flag read off the trace means: every drained notification is followed by a capture |
| Marks.MoveNames | crates/rrjj-core/src/lib.rs:458-462 | careful steps keep the held number equal to the next number, and every mark, flush and end naming the newest operation before it |
| Stranding.InStepExactly | crates/rrjj-core/src/lib.rs:466-502 | the held event stays in step and all names agree if and only if no mark, flush or shutdown came with an event held, nothing pending after its drain, and a sink that accepts the next event |
| Stranding.StepExactly | crates/rrjj-core/src/lib.rs:466-502 | the same for one command from any reachable state |
| Stranding.LostForever | crates/rrjj-core/src/lib.rs:595-600 | once the held number is behind, it stays held, every snapshot fails without effect, and no snapshot event is accepted again |
| Stranding.StrandedCommand | crates/rrjj-core/src/lib.rs:452-464 | a stranding command either gets nothing accepted or loses the held event for good |
| Stranding.WitnessLost | crates/rrjj-core/src/lib.rs:480-500 | a session of one refused snapshot and one mark that loses the held event and names an operation the log does not have |
| History.ReplaysExactly | crates/rrjj-core/src/lib.rs:918-950 | a chained stream replays to each snapshot's path-to-blob map if and only if every snapshot lists all changes that alter a blob |
| History.SessionReplays | crates/rrjj-core/src/lib.rs:849-899 | the same for every session under any failures; untruncated streams always replay |
| History.SessionProjects | crates/rrjj-core/src/lib.rs:849-899 | the same for every snapshot event of every session, against the snapshot or baseline before it |
| History.FlushNamesNewest | crates/rrjj-core/src/lib.rs:560-588 | a successful flush that strands nothing ends the log with a flush event and one request, both naming the newest snapshot and its commit |
| History.CarefulFlushHappens | crates/rrjj-core/src/lib.rs:560-568 | the first flush of an undisturbed session is a careful one, so the end-to-end results apply |
| History.ShutdownEndsSession | crates/rrjj-core/src/lib.rs:542-558 | a successful shutdown ends the log with the session end, counting the events before it, directly followed by a flush whose request succeeded |
| Recorder.ReplayExact | crates/rrjj-core/src/lib.rs:918-987 | replaying a projected difference is exact if and only if no cut-off path changes its blob |
| Recorder.StatsAreComplete | crates/rrjj-core/src/lib.rs:926-949 | the statistics count the whole difference, by kind, whatever the limit on listed changes |
| Recorder.ProjectedExactly | crates/rrjj-core/src/lib.rs:918-987 | the listed changes are those at the smallest differing paths, in order, each with kind, blob and previous blob stated over the two trees; and the flag is set exactly when more paths differ than the limit allows |
| Recorder.ProjectDiff | crates/rrjj-core/src/lib.rs:918-950 | the loop lists the first changes in path order, counts all, and flags truncation exactly when changes were cut off |
| PathLimit.FullScanExactly | crates/rrjj-core/src/lib.rs:434-449 | a fresh snapshot's capture is a full scan if and only if one was due or the accumulator reported an overflow, though any queued overflow is announced before it |
| LimitWitness.MarkWithoutFullScan | crates/rrjj-core/src/lib.rs:434-449 | a session: 100,000 paths arrive, their touched_paths event is refused, one more path arrives, and a mark is accepted after the path-limit overflow event with no full scan captured in between |
| PathLimit.LimitAloneForcesNothing | crates/rrjj-core/src/lib.rs:434-441 | merging a batch with one new path into a full window queues one overflow, keeps the table and asks for no full scan |
| Audit.RunRep | crates/rrjj-core/src/lib.rs:136-181 | in every accumulator state: at most 100,000 paths and 64 notices, and a deadline exactly when something is pending |
| Audit.DeadlineLaw | crates/rrjj-core/src/lib.rs:189-195 | the deadline is the earlier of first plus maximum delay and last plus quiescence, never moves earlier, and never passes the former |
| Tables.NotifiedTable | crates/rrjj-core/src/lib.rs:136-159 | stage one, exactly: after any notification the accumulator's table is the union of all operations per path restricted to the first 100,000 distinct paths, and the limit is noted exactly when a path was turned away |
| Tables.AdmittedFirst | crates/rrjj-core/src/lib.rs:145-155 | the admitted paths are those of a prefix of the touches, which is all of them or ends at exactly 100,000 distinct paths |
| Tables.MergeAccounts | crates/rrjj-core/src/lib.rs:424-442 | stage two, pair by pair: merging batches misses only operations of paths that the full table or their full batch turned away, and adds nothing |
| Windows.MergePathsHeld | crates/rrjj-core/src/lib.rs:429-442 | merging a batch path by path puts exactly its entries into the coordinator's table, and a newly noted limit queues an overflow |
| Accumulator.AuditAccumulator.Observe | crates/rrjj-core/src/lib.rs:136-159 | the method folds touched paths into the table as specified |
| Accumulator.AuditAccumulator.ReportOverflow | crates/rrjj-core/src/lib.rs:161-181 | the method records an overflow notice within the report limit as specified |
| Accumulator.AuditAccumulator.Drain | crates/rrjj-core/src/lib.rs:197-213 | the method returns everything accumulated, with the path-limit notice, and leaves nothing |
| CoordinatorObjects.Coordinator.Execute | crates/rrjj-core/src/lib.rs:368-411 | every command of the run loop takes the whole system where its specification does |
| CoordinatorObjects.Coordinator.RunLoop | crates/rrjj-core/src/lib.rs:368-411 | the command loop reaches the specified state of the whole session |
| CoordinatorObjects.Coordinator.SettlePending | crates/rrjj-core/src/lib.rs:452-457 | the snapshot-and-drain loop ends, because notifications are finite and each round clears the held event or the pending flag, and does what is specified |
| CoordinatorObjects.Coordinator.TakeSnapshot | crates/rrjj-core/src/lib.rs:466-502 | retrying the held event, or draining, emitting, capturing and emitting, as specified at every failure |
| CoordinatorObjects.Coordinator.DrainAudit | crates/rrjj-core/src/lib.rs:424-450 | merging a drained batch path by path, in path order, as specified |
| CoordinatorObjects.Coordinator.EmitOverflows | crates/rrjj-core/src/lib.rs:529-540 | overflows are emitted in order and kept from the first failure on |
| CoordinatorObjects.Coordinator.Flush | crates/rrjj-core/src/lib.rs:560-588 | settle, flush event, one flush request, as specified |
| CoordinatorObjects.Coordinator.Finish | crates/rrjj-core/src/lib.rs:542-558 | settle, session end, flush, as specified |
| CoordinatorObjects.JjRecorder.Capture | crates/rrjj-core/src/lib.rs:849-899 | a capture advances operation, commit and tree together and returns the snapshot that links them |
| Git.RefOnlyForward | crates/rrjj-sinks/src/git.rs:93-210 | over any run, while only this sink moves the ref, whatever it held stays an ancestor of what it holds |
| Git.PublishIsCompareAndSwap | crates/rrjj-sinks/src/git.rs:57-90 | with foreign writers in between: success leaves the ref at the requested commit, and the sink only creates or fast-forwards |
| Git.RepublishIsIdempotent | crates/rrjj-sinks/src/git.rs:139-144 | publishing the same commit again succeeds exactly when the cursor can be written, and moves nothing |
| Git.RefusedExactly | crates/rrjj-sinks/src/git.rs:139-157 | over every run of a sole writer whose commits descend from each other, restarts included: publishing a next commit is refused if and only if the ref exists and differs from the memory and the request; and ref and memory differ if and only if the newest landed push is forgotten (answer lost, or cursor unwritten before a restart, and not told again since) |
| Git.ForgottenForGood | crates/rrjj-sinks/src/git.rs:139-157 | once the newest landed push is forgotten, nothing moves the ref or restores the memory, restarts included, until that commit is published again |
| Git.ForgottenPushes | crates/rrjj-sinks/src/git.rs:57-90 | two runs, a lost answer and an unwritten cursor followed by a restart, after which a child of the landed commit is refused in every readable world |
| Git.LostAnswer | crates/rrjj-sinks/src/git.rs:139-157 | one lost answer from any state: the same commit converges, and a descendant is refused without effect if and only if the memory does not hold the landed commit already |
| Git.RetriesConverge | crates/rrjj-sinks/src/git.rs:57-90 | a publication not refused at first never becomes a conflict by retrying the same commit, however the attempts failed, and succeeds once nothing fails |
| Git.PublishExactly | crates/rrjj-sinks/src/git.rs:139-210 | without foreign writers: exactly when a publication moves the ref, and to what; exactly when it is a conflict, which has no effect |
| Git.GitCheckpointSink.PublishCheckpoint | crates/rrjj-sinks/src/git.rs:57-90 | the method moves ref, memory and cursor file as specified |
| Git.GitCheckpointSink.PushCheckpoint | crates/rrjj-sinks/src/git.rs:93-210 | reading the tip, deciding and pushing, as specified |
| Http.PublishDelivers | crates/rrjj-sinks/src/http.rs:161-231 | to an honest receiver, with growing targets and any losses: it holds a prefix of the journal, the client never believes more, the gap error cannot occur, and success means every event and a durable watermark through the target |
| Http.PostBatchOk | crates/rrjj-sinks/src/http.rs:75-157 | any number of attempts, each applied or not, keeps the receiver's prefix; an accepted answer covers the batch |
| Delivery.PostExactly | crates/rrjj-sinks/src/http.rs:75-157 | a batch is acknowledged if and only if the first answer that does not say to try again, within the retries, claims enough, and the receiver held the batch or one of the attempts took effect |
| Delivery.PublishExactly | crates/rrjj-sinks/src/http.rs:161-231 | a publication succeeds if and only if nothing is left to send, or no event is too large and the network accepts every greedy batch and the cursor can be written after each |
| Delivery.RetriedThenAccepted | crates/rrjj-sinks/src/http.rs:88-155 | failed and retryable answers within the retry limit, followed by a good one, deliver the batch |
| Http.SendFollowsGreedy | crates/rrjj-sinks/src/http.rs:201-229 | the batches posted are consecutive pieces of the unsent events with the greedy sizes as far as it got, all of them on success; and the size error comes exactly where the greedy cut gets stuck |
| Http.PublishPostsGreedily | crates/rrjj-sinks/src/http.rs:161-231 | a publication posts only greedy batches of the events not yet delivered; on success it has posted all of them, and no cut within the limits has fewer batches |
| Http.RestartKeepsInv | crates/rrjj-sinks/src/http.rs:42-63 | a client restarted from its cursor file believes no more than the receiver holds |
| HttpClient.HttpEventSink.PostBatch | crates/rrjj-sinks/src/http.rs:75-157 | the retry loop ends and has the specified effect and answer |
| HttpClient.HttpEventSink.PublishEvents | crates/rrjj-sinks/src/http.rs:161-231 | skipping, gap checks and the batch loop, as specified at every failure |
| HttpClient.HttpEventSink.ValidateContiguous | crates/rrjj-sinks/src/http.rs:254-264 | true exactly when every number follows the one before |
| Batching.TakeBatch | crates/rrjj-sinks/src/http.rs:294-317 | fails exactly when the first event alone is too large; otherwise takes the longest prefix within both limits, in the encoding of section 5 of RFC 8259 |
| Batching.GreedyPartitions | crates/rrjj-sinks/src/http.rs:201-229 | repeated batches cut the unsent events in order into non-empty batches within both limits |
| Batching.GreedyOptimal | crates/rrjj-sinks/src/http.rs:294-317 | no other way to cut them within the limits uses fewer batches |
| Batching.GreedyFailsExactly | crates/rrjj-sinks/src/http.rs:307-312 | batching fails exactly when some single event is too large |
| Batching.PartitionExistsExactly | crates/rrjj-sinks/src/http.rs:294-317 | batching fails exactly when no partition within the limits exists |
| DurableSinks.DurableSessionSink.FlushSession | crates/rrjj-sinks/src/durable.rs:52-104 | journal, checkpoint, events and the final acknowledgement checks, in that order with early exits, as specified |
| DurableSinks.DurableSessionSink.LatestSnapshotCommit | crates/rrjj-sinks/src/util.rs:36-41 | the backward search finds the commit of the newest snapshot event |
| Journal.JournalRoundTrip | crates/rrjj-sinks/src/util.rs:43-86 | a written journal reads back under either parser, as exactly its events, if and only if they are numbered from 0 within one session of the supported version |
| Journal.ReadTimeline | crates/rrjj-reader/src/lib.rs:375-416 | the reading loop accepts exactly the streams whose lines are text, decode, count up from 0 and stay in one session |
| Journal.ReopenedIsReadable | crates/rrjj-sinks/src/util.rs:43-86 | any bytes the writer accepts when reopening are contiguous in one session, and the reader accepts them as the same events |
| JournalRuns.ReadsBackExactly | crates/rrjj-sinks/src/journal.rs:114-158 | over every run of emits, accepted, refused or failed after any number of bytes, the file reads back as the accepted events under either parser if and only if no failed write left a byte |
| JournalRuns.RetryAfterTornWrite | crates/rrjj-sinks/src/journal.rs:136-151 | after a failed write and any accepted next event, the same or another, both parsers refuse the file unless the failed write left nothing |
| Journal.WrittenInjective | crates/rrjj-sinks/src/journal.rs:136-151 | different event sequences have different files |
| JournalSinks.NdjsonSink.Emit | crates/rrjj-sinks/src/journal.rs:114-158 | accepts exactly the next event of the session that fits; file, counter and accepted events change together, and what a failed write leaves is stated |
| JournalSinks.NdjsonSink.Open | crates/rrjj-sinks/src/journal.rs:41-87 | opens exactly when the file parses and fits, with the parsed events |
| JournalSinks.NdjsonSink.Reopen | crates/rrjj-sinks/src/journal.rs:41-87 | reopening an intact journal gives back its accepted events |
| JournalSinks.NdjsonSink.EventsThrough | crates/rrjj-sinks/src/journal.rs:101-109 | all accepted events exactly when the last one is the requested one |
| Reader.OpenedSession | crates/rrjj-reader/src/lib.rs:107-195 | an opened session holds exactly the events 0 to its watermark of one session, and each is found by its number and nothing else |
| Reader.Open | crates/rrjj-reader/src/lib.rs:107-143 | the checks in order, each with its error |
| Reader.OpensExactly | crates/rrjj-reader/src/lib.rs:107-143 | a session opens, with these events, exactly if the manifest is there, supported and durable and the file it names holds exactly a stream ending at its watermark |
| Reader.IndexExactly | crates/rrjj-reader/src/lib.rs:149-181 | a line of the index states its event's number, a kind that tells events apart, and operation and tree exactly as the event records or names them |
| Reader.InspectFinds | crates/rrjj-reader/src/lib.rs:197-219 | in a chained timeline a lookup returns exactly what the one event that recorded the operation says, and fails exactly when none did |
| Reader.InspectNewest | crates/rrjj-reader/src/lib.rs:197-219 | looking up the newest operation returns the newest snapshot event, or the baseline |
| Reader.InspectTreeEarliest | crates/rrjj-reader/src/lib.rs:221-228 | looking up a tree returns the earliest event that has it, and fails exactly when none has |

## Left out

- Ids, hex decoding and OID normalisation: an id is the object it names, so malformed ids do not occur.
- Event texts: JSON and RFC 3339 are an encoding that is injective and free of line breaks (`Journal.Sound`); that lines which decode are text and decode the same without a trailing carriage return (`Journal.Uniform`), and that beginnings of encoded events, one after the other, are not blank and encode nothing unless there is one and it is whole (`JournalRuns.FragmentsRejected`), are assumptions about the encoding used only where a lemma names them; timestamps, the end of an audit window, mark metadata, change sizes and renames (`bytes`, `from`) and the session-start configuration are not carried.
- Error events and status replies: neither changes the coordinator's state.
- A capture is atomic: it fails without effect or advances operation, commit and tree together; the working copy, ignore rules and conflicted trees of jj-lib are not part of this model.
- A full scan and an incremental one read the same tree; the model records which of the two a capture was.
- Local.SessionAlwaysReadable: the repository being mirrored holds the completed objects of the operation being published, and an immutable name always has the same content, because it is that content's hash.
- Overflow of sequence numbers, byte counters and file sizes beyond 64 bits; only the raw event counts saturate as in the source.
- Emit failures of the coordinator's sink have no effect on its accepted events; what a failed write leaves in a journal or spool file is modelled in JournalSinks and Local.
- Remote.ContentBeforeEvents: states in the middle of a flush are covered as flushes whose remaining requests are neither sent nor answered.
- Retry delays, Retry-After, timeouts and HTTP status codes: an answer belongs to one of four classes; error texts and redaction are not modelled.
- An unreadable ref that libgit2 reports as missing: the model fails the publication, the source would try to push, which the remote takes only as a fast-forward.
- The fetch, the local ref update and credentials of a Git push; a foreign writer may act between reading the tip and the push, once.
- Durable storage after power loss: fsync steps can fail, but completed files are taken as durable; permissions and the contents of `cursor.json` in the session directory are not modelled.
- Hard links are copies by value: aliasing between repository and session directory is not captured, since the recorder never rewrites immutable files.
- Byte-wise comparison of files is equality; short reads are not modelled.
- The reader's diff and materialize, which are jj-lib operations on the objects shown to be present, and error line numbers.
- The watcher thread, path and glob filters, the control socket, HTTP routes, the browser timeline and the benchmarks.
