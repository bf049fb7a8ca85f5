# A verified model of the assistant runtime's stores, schedulers and locks

This project models the stateful protocols of the afkbot runtime and proves what they promise over
whole runs, together with four self-contained algorithms.

* **Transcript store.** Turns and prunes are enqueued in a transactional outbox, written to per-session
  append-only files by after-commit callbacks that may fail, and written again by a drain that may crash.
  `TranscriptLog` is the file and its reader, `TranscriptMachine` the protocol as a state machine over
  sets of facts, `TranscriptFiles` and `TranscriptStore` the store as an object that updates files,
  counters, outbox and pending ids in place, each operation tied to a step of the machine, and
  `TranscriptTheorems` the results over runs, `DualMirror` when the mirror of dual mode agrees with the
  table, `PruneRounds` what repeated bounded prunes end in, and `TranscriptClient` what a caller reads back
  after writing and pruning.
* **Run events.** `RunlogEvents` is the event store: run index, full scan, cursor reads, batched backfill;
  `RunlogMachine` its outbox protocol over whole runs.
* **Task flow.** `TaskRows` holds the rows, the conditional UPDATEs and the unique indexes, `TaskScheduler` the
  two-stage choice, `TaskEligibility` what is due and what comes first in terms of the columns, `TaskFlow` the runs and their guarantees, `TaskRepository` the repository object and the sweep,
  `TaskConflicts` what a refused choice does to others.
* **Claims and queues.** `AutomationClaims` (cron and webhook claims), `TurnQueue` (turn admission) and
  `TurnPolls` (the same with reads and UPDATE apart).
* **Write gate.** `WriteGate` interleaves the tasks of any number of event loops and processes, and
  `WriteProgress` says when a writer is admitted.
* **Algorithms.** `TelegramText` (with `PythonText`), `LogTail`, `HistoryPrune`, `MemorySearch`.
* `Ordering` holds what SQL gives every query: ORDER BY keys, NULLS LAST, LIMIT, max.

Rows of tables and lines of files are values; tables are maps from row id to row, files are sequences of
records, SQL NULL is `Option`, timestamps, claim tokens and string row ids that are only compared are
integers.  A repository call is one atomic step.  `session_write_scope` arranges that by holding the write gate
from the first read on.  Task runtime, turn queue and stores run in `session_scope`, whose gate starts at the
first write, so other writers may come between their reads and that write.  Where it matters the model lets
them: a task claim may rest on a SELECT of any age (`ClaimSelected`), a poll of the turn queue on reads of any age
(`TurnPolls`), and the claims of cron triggers and webhook events are single UPDATEs that re-check everything.
For the reads of `_create_turn` and the store's drains one step is an assumption.
JSON and datetime encoding are the identity; a line that does not parse is
`Unreadable` (or `Bad`).  Clocks, fresh row ids and fresh claim tokens are parameters.

## Where the code does not do what one would expect

Each of these is a result of the model.  Where the code meets its promise on part of the inputs, the lemma
with `Iff` in its name, or the contract named, states the exact condition.

* A dual-mode prune leaves table and mirror equal exactly when it deletes nothing, or the session has an id,
  every row it deletes was committed before the transaction, and the refreshed file shows no turn that the
  transaction's table has already lost (`PruneDualAgreesIff`, `JsonlStore.DeleteUpToDual`).  That is so for
  the first operation of a transaction, and more generally when the transaction created no turn of the
  profile and session up to the bound, has no prune of it pending, and no prune of it is undelivered while
  the store has pending rows (`QuietPruneAgrees`).  It fails, for instance, for a prune of a turn created in
  the same transaction (`CreateAndPruneInOneTransactionDiverge`) and for a second prune of the same profile and session
  in one transaction that deletes more rows.  After operations that agreed, a create with a never-reused id
  agrees too, wherever it stands in the transaction (`CreateDualInv`); the next point is about other ids.
* A new dual-mode turn shows in the mirror exactly when its row id is above every prune boundary of its
  profile and session (`DualCreateAgreesIff`).  SQLite reuses the largest row id after its row is deleted, so
  pruning the newest turn and creating another hides the new turn from the mirror
  (`ReusedRowidIsBornHidden`, a run from the empty store).
* A prune under the empty session id is enqueued and counted, and dropped when it is applied: the view does
  not change (`JsonlStore.ApplyMutation`, `EmptySessionPruneIsLost`), and in dual mode the table parts from the mirror
  (`FirstPruneIff`).
* The chosen task has the least flow load among all equally ranked runnable tasks exactly when none of them
  lies in a flow with less load than every equally ranked head of an executor (`LoadIsLeastIff`); it need not
  (`LoadIsNotBalancedWithinAnExecutor`).
* Clearing the claim of a task that is still active orphans it (`ClearingAnActiveTaskOrphansIt`); the
  repository keeps its invariant exactly when that does not happen (`TaskTable.ClearTaskClaim`).
* Reading run events through the index agrees with the scan exactly when the recorded session id survives
  stripping, is blank or absent, or the run has no events (`IndexAgreesIff`); the first event of a run in a
  session whose id starts with a blank is not found (`BlankLeadingSessionIsNotFound`).  And each append moves the
  index to its own session, so the events a run has in another session are no longer found
  (`IndexFollowsLastAppendIff`).
* Task idents are unique among live tasks only: a stale marker inherited from a finished task lets a new task
  write without the gate (`StaleMarkerBypassesTheGate`, a run from the start; `SpawnKeepsInvIff`).
* A session that owns the lease and finishes before a nested session with uncommitted writes leaves those
  writes outside the gate (`FinishKeepsGateIff`, and `OwnerFinishingFirstUncoversWrites` for a run from the
  start).
* No order is prescribed between the gates of different databases: two tasks of one loop that own one each and then
  ask for the other's wait for ever (`CrossedOwnersWaitForEver`, `TwoDatabasesDeadlock` for a run from the start).
  With one database a waiter always has somebody to wait for who can give the gate back (`WaitingHasAReason`).
* An update that makes a task a todo without a ready time stamps it anew each time; every other update can be repeated
  without effect (`EditTwiceIff`).
* The claiming UPDATE checks its own row only, so with an old SELECT its guard keeps one active task per executor
  exactly when the executor is still idle (`LateClaimKeepsInvIff`).  The unique index on the claim owner is what
  refuses the second of two such claims (`LateClaimsExclude`), and with it the invariant holds in every run.  The
  status the claim records is the SELECT's: when it is out of date, the sweep can hand review work to the owner, or
  the owner's work to the reviewer (`SweepUndoesClaimIff` says exactly when it does not).
* The unique index on the owner refuses more than that.  A runnable choice is claimed exactly when the employee who
  owns it owns no other active task (`ChoiceIsClaimedIff`, `TaskTable.ClaimNextRunnableTask`), though the query asks
  for an idle executor only: review work for an idle reviewer is refused while its owner works on something else,
  and so is an owner's work while a reviewer works on another of the owner's tasks.  The next claim makes the same
  choice, so lower-ranked tasks of idle executors wait too (`RefusedChoiceStopsClaims`, and
  `RefusedReviewStopsOthers` for a run from the empty table).
* A poll of the turn queue whose two SELECTs see one state may write as late as it likes (`InterleavingsAreRuns`).
  When another row starts between the two SELECTs, both can let a second row through, and two turns of a session run
  (`TwoSnapshotsAdmitTwo`); the UPDATE keeps the queue right exactly when nothing of the session runs and its row is
  next at that moment (`MarkKeepsInvIff`).
* The row ids of started turns strictly increase within every session, throughout a run, exactly when no row
  is queued at or below a started id of its session (`StartedIdsIncreaseIff`).  SQLite's row ids do not
  guarantee that (`StartedIdsCanRepeat`); the order of arrival is kept all the same
  (`AdmissionIsFifoAndExclusive`).
* The documentation of the scheduler speaks of one candidate per idle `(profile_id, owner_ref)`; the query
  partitions by profile, claim owner type and claim owner ref, and so does the model.

## Model

| member | source | states |
|---|---|---|
| TranscriptLog.ReadTranscriptRows | afkbot/services/session_transcripts.py:706-732 | the reader yields every visible row once, in id order: first row of a key wins, rows at or below the largest boundary are hidden |
| TranscriptLog.CollectRecords | afkbot/services/session_transcripts.py:707-729 | the loop over the lines computes the first row of every key and the largest boundary of every profile and session |
| TranscriptLog.ViewIsVisible | afkbot/services/session_transcripts.py:706-732 | the folded view equals a declarative view of the SET of facts in the file |
| TranscriptLog.ViewIgnoresOrderAndRepetition | afkbot/services/session_transcripts.py:502-516 | files with the same facts show the same turns, in any order and with any repetition |
| TranscriptLog.SameRecordsSameFacts | afkbot/services/session_transcripts.py:706-732 | permuting or duplicating lines does not change the facts of a file |
| TranscriptLog.AppendTurnFacts | afkbot/services/session_transcripts.py:440-445 | re-applying a turn is idempotent and adds exactly its fact, whether or not a line is written |
| TranscriptLog.PruneRemovesExactly | afkbot/services/session_transcripts.py:724-732 | a prune record hides exactly the ids of its profile and session up to its boundary |
| TranscriptLog.HiddenTurnsDoNotMatter | afkbot/services/session_transcripts.py:557-568 | backfilling pruned turns again does not change the view |
| TranscriptMachine.RunInv | afkbot/services/session_jsonl_outbox.py:72-132 | every run of begin, create, prune, backfill, drain, commit, rollback, callback and crash steps, in both modes, keeps: committed mutations are on disk or in the outbox, and nothing else reaches the disk |
| TranscriptMachine.CommitDelivers | afkbot/services/session_jsonl_outbox.py:111-132 | committing a drain deletes only outbox rows that are on disk |
| TranscriptMachine.RefreshedIsExact | afkbot/services/session_transcripts.py:518-574 | after backfill and drain the file shows exactly the committed view of the profile and session; in dual mode exactly the table |
| TranscriptMachine.AllocatedIsFresh | afkbot/services/session_transcripts.py:238-253 | the allocated id is above every table id and different from every id ever used by the profile and session, hidden ones included |
| TranscriptMachine.BackfilledCounter | afkbot/services/session_transcripts.py:569-574 | after a backfill the counter is above every id of the profile and session |
| TranscriptMachine.BoundaryIsExact | afkbot/services/session_transcripts.py:375-391 | the boundary of a bounded prune hides exactly the selected ids |
| TranscriptMachine.TableAfterPrune | afkbot/repositories/chat_turn_repo.py:106-138 | deleting the selected rows leaves the table equal to the view with the boundary record added |
| TranscriptMachine.ShownAndTable | afkbot/services/session_transcripts.py:647-668 | in every dual-mode state the rows the mirror still shows though the table lost them come before, and the rows it does not show yet after, all others |
| TranscriptMachine.SelectionAgreesIff | afkbot/services/session_transcripts.py:647-668 | the boundary of the mirror covers exactly the deleted ids if and only if every deleted id is shown and nothing is shown that the table lost; then the mirror selects the deleted ids |
| TranscriptMachine.PruneDualKeepsInvIff | afkbot/services/session_transcripts.py:647-668 | a dual-mode prune, after any operations of its transaction, keeps table and mirror equal if and only if it deletes nothing, or the session has an id and the largest id the mirror selects covers exactly the deleted ids |
| TranscriptMachine.PruneDualAgreesIff | afkbot/services/session_transcripts.py:647-668 | the same condition on the state before the call: every deleted row was committed before and the refreshed file shows nothing the table lost |
| TranscriptMachine.CreateDualInv | afkbot/services/session_transcripts.py:591-612 | a dual-mode create with a never-reused id keeps table and mirror equal, whatever its transaction did before |
| TranscriptTheorems.ReadersSeeOnlyCommittedTurns | afkbot/services/session_transcripts.py:271-290 | at every moment of every run the files show committed and legacy turns only |
| TranscriptTheorems.DrainedStoreIsExact | afkbot/services/session_transcripts.py:492-531 | with an empty outbox and the legacy rows backfilled, the files show exactly the view of all committed mutations, however often and in whatever order they were applied |
| TranscriptTheorems.ReadsAreExact | afkbot/services/session_transcripts.py:313-357 | in every reachable state a read that refreshes first, after whatever its transaction enqueued and with or without stale pending ids, shows committed turns only, and exactly the committed view, in dual mode the table, once the file is caught up |
| TranscriptTheorems.CommittedIdsIncrease | afkbot/services/session_jsonl_outbox.py:19-69 | committed ids of a session strictly increase in commit order and lie above the legacy rows, through rollbacks that reuse a number |
| TranscriptTheorems.OnlyLaterPrunesHide | afkbot/services/session_transcripts.py:238-262 | no turn is born hidden: a boundary at or above it was committed after it |
| TranscriptTheorems.PruneCount | afkbot/services/session_transcripts.py:369-408 | a bounded prune selects exactly the min(max(1, limit), n) smallest eligible ids |
| TranscriptTheorems.TombstoneEqualsDeletion | afkbot/services/session_transcripts.py:447-478 | writing a boundary record and deleting the selected rows leave the same view |
| TranscriptTheorems.PruneRoundsConverge | afkbot/repositories/chat_turn_repo.py:106-138 | repeating a bounded prune ends where the unbounded prune ends, for every limit |
| DualMirror.QuietPruneAgrees | afkbot/services/session_transcripts.py:647-668 | a guard that is easy to check before a dual-mode prune suffices: no turn created up to the bound, no pending prune, no undelivered prune while rows are pending |
| DualMirror.PruneFirst | afkbot/services/session_transcripts.py:647-668 | a prune that opens its transaction deletes the selected rows and enqueues exactly their boundary |
| DualMirror.FirstPruneIff | afkbot/services/session_transcripts.py:647-668 | after such a prune table and mirror are equal if and only if the session has an id or nothing was deleted |
| DualMirror.DualCreateAgreesIff | afkbot/services/session_transcripts.py:591-612 | with any free row id and after any operations of its transaction, table and mirror agree after a create if and only if the id is above every boundary |
| DualMirror.ReusedRowidIsBornHidden | afkbot/services/session_transcripts.py:591-612 | a run from the empty store after which a reused row id is hidden from the mirror |
| DualMirror.CreateAndPruneInOneTransactionDiverge | afkbot/services/session_transcripts.py:647-668 | a run in which a turn created and pruned in one transaction stays in the mirror |
| PruneRounds.PruneRoundView | afkbot/services/session_transcripts.py:359-408 | a bounded prune in its own transaction removes exactly the selected ids from the committed view, in either mode, or, without a session id in the JSONL mode, none, whatever callbacks and crashes follow |
| PruneRounds.PruneRunConverges | afkbot/repositories/chat_turn_repo.py:106-138 | as many bounded prunes as there are eligible turns end in the view, in dual mode the table, of the unbounded prune, for every limit; without a session id any number of them leaves the view of the JSONL store as it is |
| PruneRounds.EmptySessionPruneIsLost | afkbot/services/session_transcripts.py:504-509 | a prune under the empty session id leaves the committed view as it is |
| TranscriptClient.CreatedTurnIsCommitted | afkbot/services/session_transcripts.py:228-291 | begin, create, commit and any callbacks and crashes, in either mode: the committed view gains exactly one turn, of the profile and session, with the given texts and an id above all its earlier ids |
| TranscriptClient.PruneRemovesTheOldest | afkbot/services/session_transcripts.py:359-408 | a bounded prune in its own transaction removes exactly the turns of the profile and session up to the bound with fewer than max(1, limit) older ones, and no other turn |
| TranscriptClient.TakeTurn | afkbot/services/session_transcripts.py:228-291 | one turn in its own transaction: it is committed with its texts after all earlier ones, and on file at once exactly when its callback succeeds |
| TranscriptClient.PruneTurns | afkbot/services/session_transcripts.py:359-408 | the same about the store, in either mode, with the count returned equal to the number of turns gone |
| TranscriptClient.ReadTurns | afkbot/services/session_transcripts.py:339-357 | in its own transaction a range read lists exactly the committed turns of the profile and session between the exclusive bounds, with their texts, in id order, and leaves no outbox row of the session |
| TranscriptClient.ReadRecentTurns | afkbot/services/session_transcripts.py:319-337 | the newest committed turns above the bound, as many as the limit allows, oldest first |
| TranscriptClient.CountTurns | afkbot/services/session_transcripts.py:313-317 | the number of committed turns of the profile and session |
| TranscriptClient.TakeTurns | afkbot/services/session_transcripts.py:228-291 | a sequence of turns adds exactly these turns, in order, above everything there was |
| TranscriptClient.Converse | afkbot/services/session_transcripts.py:228-357 | a read after any sequence of turns, callbacks failing or not, returns the earlier list followed by the new turns in the order taken, each with its own texts |
| TranscriptFiles.ListingsAgree | afkbot/repositories/chat_turn_repo.py:86-104 | any two listings of a window agree row by row, so file and table return the same range |
| TranscriptFiles.TableRange | afkbot/repositories/chat_turn_repo.py:86-104 | the table's range query lists exactly the window in id order |
| TranscriptFiles.FileRange | afkbot/services/session_transcripts.py:347-357 | the filter over the file's rows lists exactly the window in id order |
| TranscriptFiles.TableRecent | afkbot/repositories/chat_turn_repo.py:60-84 | newest first up to the limit, then reversed: the most recent rows in ascending order |
| TranscriptFiles.RecentAgree | afkbot/services/session_transcripts.py:319-337 | the most recent rows are determined by the window, so file and table return the same list |
| TranscriptFiles.FileShowsItsSession | afkbot/services/session_transcripts.py:576-581 | one session's file shows exactly that session's part of the view of all files |
| TranscriptFiles.CandidateIds | afkbot/services/session_transcripts.py:376-380 | the candidate rows list exactly the eligible ids in ascending order |
| TranscriptFiles.SelectedRows | afkbot/services/session_transcripts.py:383-384 | the sliced candidates have the size of the selection and end at its largest id |
| TranscriptFiles.CommitRefines | afkbot/db/session.py:107-121 | a commit followed by its callbacks is a run of the machine and keeps the invariant |
| TranscriptStore.JsonlStore.TurnExists | afkbot/services/session_transcripts.py:735-743 | a turn exists exactly when its key is visible |
| TranscriptStore.JsonlStore.AppendReservedTurn | afkbot/services/session_transcripts.py:440-445 | appending adds exactly the turn's fact to what the files say |
| TranscriptStore.JsonlStore.ApplyMutation | afkbot/services/session_transcripts.py:492-516 | a turn, or a prune with a session id, adds exactly its fact; a prune without one, or an unreadable mutation, changes nothing |
| TranscriptStore.JsonlStore.AllocateId | afkbot/services/session_jsonl_outbox.py:19-42 | returns the larger of counter and floor and advances the counter past it |
| TranscriptStore.JsonlStore.EnsureNextId | afkbot/services/session_jsonl_outbox.py:45-69 | raises the counter to at least the given id and never lowers it |
| TranscriptStore.JsonlStore.EnqueueMutation | afkbot/services/session_jsonl_outbox.py:72-92 | adds one outbox row, one pending id and one callback to the open transaction |
| TranscriptStore.JsonlStore.DrainBatch | afkbot/services/session_jsonl_outbox.py:95-132 | applies the oldest open rows of the session up to the limit and deletes exactly those |
| TranscriptStore.JsonlStore.DrainOutbox | afkbot/services/session_transcripts.py:518-531 | batches until no row of the session is left, unless the store has pending rows, of this transaction or stale ones |
| TranscriptStore.JsonlStore.BackfillDatabaseTurns | afkbot/services/session_transcripts.py:533-574 | every committed table row of the profile and session reaches the file and the counter ends above them |
| TranscriptStore.JsonlStore.CreateTurn | afkbot/services/session_transcripts.py:228-291 | refines the machine's create step and keeps the invariant; exactly the returned row, with the caller's texts, is enqueued |
| TranscriptStore.JsonlStore.CreateTurnDual | afkbot/services/session_transcripts.py:591-612 | refines the machine's dual create step and keeps the invariant; exactly the returned row is inserted and enqueued |
| TranscriptStore.JsonlStore.PruneMirror | afkbot/services/session_transcripts.py:359-408 | refines the machine's prune, with or without stale pending ids, and returns the number of selected rows |
| TranscriptStore.JsonlStore.DeleteUpTo | afkbot/services/session_transcripts.py:359-408 | the same in the JSONL mode, keeping the invariant |
| TranscriptStore.JsonlStore.DeleteRows | afkbot/repositories/chat_turn_repo.py:106-138 | deletes exactly the smallest eligible rows up to the limit and returns their number |
| TranscriptStore.JsonlStore.DeleteUpToDual | afkbot/services/session_transcripts.py:647-668 | refines the machine's dual prune and returns the number of deleted table rows; the invariant holds afterwards if and only if the two sides agree on the rows |
| TranscriptStore.JsonlStore.ListRange | afkbot/services/session_transcripts.py:339-357 | lists what the refreshed file shows in id order: only committed turns, and, at the start of a transaction of a store without stale pending ids, exactly the committed window, in dual mode the table's |
| TranscriptStore.JsonlStore.ListRecent | afkbot/services/session_transcripts.py:319-337 | the most recent rows the refreshed file shows; under the same condition those of the committed window, in dual mode of the table |
| TranscriptStore.JsonlStore.Count | afkbot/services/session_transcripts.py:313-317 | the number of turns the refreshed file shows; under the same condition the number of committed visible turns |
| TranscriptStore.JsonlStore.RunCallbacks | afkbot/db/session.py:148-159 | exactly the mutations of the callbacks that did not fail are written, and every pending id is dropped |
| TranscriptStore.JsonlStore.Commit | afkbot/db/session.py:107-121 | refines the machine's commit and callback steps and keeps the invariant |
| TranscriptStore.JsonlStore.Rollback | afkbot/db/session.py:123-131 | forgets transaction and callbacks, keeps files and committed rows |
| RunlogEvents.IndexAgreesIff | afkbot/services/session_events.py:460-470 | the index read finds the events of the scan if and only if the recorded session id survives stripping (or is blank or absent) or the run has no events |
| RunlogEvents.BlankLeadingSessionIsNotFound | afkbot/services/session_events.py:657-667 | a concrete store, left by one append, in which the index leads to the wrong file and the event is not found |
| RunlogEvents.AppendFacts | afkbot/services/session_events.py:344-354 | appending adds exactly the event, keeps lines unique by run and id, and runs in one session |
| RunlogEvents.RunlogStore.AppendReserved | afkbot/services/session_events.py:344-354 | for any event, with or without a crash before the index write, the files gain exactly the event unless its file has its run and id, and the index names its session; files and index stay right if and only if the run has no event in another session |
| RunlogEvents.AppendKeepsFilesIff | afkbot/services/session_events.py:344-354 | after an append of any event lines are unique and runs in one session if and only if the run had no event in another session |
| RunlogEvents.IndexFollowsLastAppendIff | afkbot/services/session_events.py:460-470 | after an append an index read finds the run's events of that session, and all of the run's events if and only if no other session has any |
| RunlogEvents.RunlogStore.EventExists | afkbot/services/session_events.py:621-624 | an event exists exactly when a line has its run and id |
| RunlogEvents.RunlogStore.ReadAllEvents | afkbot/services/session_events.py:484-492 | lists every event of every file once, ordered by run and id |
| RunlogEvents.RunlogStore.ReadRunEvents | afkbot/services/session_events.py:460-470 | lists the events the index leads to, each once, in id order |
| RunlogEvents.ListingUnique | afkbot/services/session_events.py:484-492 | a set of events has one listing |
| RunlogEvents.NextPage | afkbot/services/session_events.py:273-289 | the page after the k-th event of a run is the next slice of its listing |
| RunlogEvents.PageMeans | afkbot/services/session_events.py:273-289 | a page holds events above the cursor in id order, as many as the limit allows, and leaves out none that comes before them |
| RunlogEvents.RunlogStore.ListRunEventsSince | afkbot/services/session_events.py:273-289 | returns the page of the run's listing after the cursor |
| RunlogEvents.RunlogStore.WalkCursor | afkbot/services/session_events.py:273-289 | walking the cursor with any positive limit visits each event once, in order |
| RunlogEvents.RunlogStore.MaterializeDatabaseEvents | afkbot/services/session_events.py:438-458 | the files gain exactly the rows and the counters end above them, never lowered |
| RunlogEvents.BatchFacts | afkbot/services/session_events.py:392-410 | a batch takes the rows up to its last id, and a short or empty batch leaves none |
| RunlogEvents.RunlogStore.BackfillDatabaseEvents | afkbot/services/session_events.py:381-410 | for every batch size the loop terminates with exactly the committed rows of the run added to the files, once each, and the counters above them |
| RunlogMachine.RunInv | afkbot/services/session_events.py:192-250 | every run of create, append, drain, commit, rollback, callback and crash steps, each append possibly stopping before the index write, keeps: committed events are on file or in the outbox, nothing else is on file, lines are unique and the index is true |
| RunlogMachine.AllocatedIsNew | afkbot/services/session_events.py:203-219 | the allocated id is above every id the session has in table, history or open transaction |
| RunlogMachine.EventsExactlyOnce | afkbot/services/session_events.py:344-379 | in every reachable state the files hold committed events and table rows only, none twice, and all of them once the outbox is empty and the table backfilled |
| RunlogMachine.IndexStaysTrue | afkbot/services/session_events.py:460-470 | in every reachable state, after every crash, the index read finds what the scan finds if the recorded session id survives stripping |
| RunlogMachine.CreatedEventIsCommitted | afkbot/services/session_events.py:192-270 | begin, create and commit add exactly one event, with the given run, session and body and an id above all of the session |
| RunlogMachine.DeliveredEventIsOnFile | afkbot/services/session_events.py:344-379 | a successful callback, or a later drain, puts exactly that event on file and points the index at its session |
| RunlogMachine.ReadShowsTheRun | afkbot/services/session_events.py:460-470 | a read through the index shows exactly the events on file with that run |
| TaskRows.UnclaimedRowKeepsInvIff | afkbot/repositories/task_flow_repo.py:1756-1885 | rewriting a row without claim fields keeps the invariant if and only if the new status is not active |
| TaskRows.UpdateKeepsInvIff | afkbot/repositories/task_flow_repo.py:724-822 | an update keeps the invariant if and only if it does not make an unclaimed row active |
| TaskRows.ClaimKeepsInv | afkbot/repositories/task_flow_repo.py:1369-1386 | claiming a candidate keeps one active task per executor if and only if its executor is idle |
| TaskRows.ClaimRejectedIff | afkbot/db/bootstrap_runtime.py:303-362 | for a candidate the unique indexes refuse the claim if and only if its executor is busy or its owner owns another active task |
| TaskRows.UpdateGuard | afkbot/repositories/task_flow_repo.py:1511-1540 | for an executor the UPDATE guard holds exactly of the candidates that would be charged to it |
| TaskRows.ClearingAnActiveTaskOrphansIt | afkbot/repositories/task_flow_repo.py:1849-1885 | clearing the claim of an active task leaves an active row no token can move |
| TaskScheduler.ChoiceIsOptimal | afkbot/repositories/task_flow_repo.py:1457-1490 | no runnable task of an idle executor outranks the chosen one by priority and due date; among equally ranked heads it has the least flow load, then it is the oldest |
| TaskScheduler.RankMeaning | afkbot/repositories/task_flow_repo.py:1939-1950 | higher priority first, then earlier due date, no due date last |
| TaskScheduler.ChoiceExists | afkbot/repositories/task_flow_repo.py:1495-1498 | something is chosen whenever something is runnable |
| TaskScheduler.LoadIsLeastIff | afkbot/repositories/task_flow_repo.py:1478-1488 | the choice has the least flow load among all equally ranked runnable tasks if and only if none of them is less loaded than every equally ranked head |
| TaskScheduler.HeadsOfPeersArePeers | afkbot/repositories/task_flow_repo.py:1425-1430 | the head of the executor of an equally ranked runnable task is equally ranked |
| TaskScheduler.LoadIsNotBalancedWithinAnExecutor | afkbot/repositories/task_flow_repo.py:1457-1461 | a concrete table in which an equally ranked task in a less loaded flow is passed over |
| TaskScheduler.FindHeads | afkbot/repositories/task_flow_repo.py:1425-1430 | finds exactly the first row of every profile and executor |
| TaskScheduler.SelectNext | afkbot/repositories/task_flow_repo.py:1412-1490 | the two stages together return the unique choice, and none exactly when nothing is runnable |
| TaskEligibility.TodoIsRunnableIff | afkbot/repositories/task_flow_repo.py:1387-1408 | a todo task is runnable if and only if a named employee owns it, it has no ready time or one that has passed, and the owner has no claimed or running task |
| TaskEligibility.BlockedIsRunnableIff | afkbot/repositories/task_flow_repo.py:1391-1408 | a blocked task is runnable if and only if a named idle employee owns it, its ready time has passed or a review asked for changes, and it waits for no dependency |
| TaskEligibility.ReviewIsRunnableIff | afkbot/repositories/task_flow_repo.py:1409-1413 | a task in review is runnable if and only if its reviewer, or the owner where there is none, is a named idle employee |
| TaskEligibility.RunnableIffDue | afkbot/repositories/task_flow_repo.py:1387-1442 | the query admits exactly the tasks of its scope that are due for an idle employee |
| TaskEligibility.NothingRunnableMeans | afkbot/repositories/task_flow_repo.py:1369-1442 | when nothing is runnable every due todo task of an employee has its owner at work |
| TaskEligibility.RunnableStaysRunnable | afkbot/repositories/task_flow_repo.py:1387-1399 | what is runnable stays runnable at every later clock |
| TaskEligibility.ChoiceComesFirst | afkbot/repositories/task_flow_repo.py:1478-1489 | the choice has a higher priority than any other runnable task, or the same and an earlier due date, or ties and is the older one if both are for one employee |
| TaskEligibility.ChoiceBalancesFlows | afkbot/repositories/task_flow_repo.py:1478-1489 | among tying tasks that are the oldest of their employee the choice lies in a least loaded flow, then is the oldest |
| TaskEligibility.AgeMeaning | afkbot/repositories/task_flow_repo.py:1939-1950 | older means ready earlier, without a ready time last, then created earlier, then by id |
| TaskEligibility.LoadMeaning | afkbot/repositories/task_flow_repo.py:1443-1456 | the load of a flow is the number of claimed and running tasks of the profile in it, tasks without a flow counting as one flow |
| TaskEligibility.RejectedMeans | afkbot/models/task.py:31-51 | a row is refused if and only if another claimed or running task of the profile has the same employee as owner or as claim owner |
| TaskEligibility.IndexedMeans | afkbot/models/task.py:31-51 | with the indexes no two claimed or running tasks of a profile have the same employee as owner, or as claim owner |
| TaskEligibility.EditedColumns | afkbot/repositories/task_flow_repo.py:724-822 | what an update leaves in every column: values not given stay, a status takes the blocking reason with it, and claim and times follow the status |
| TaskEligibility.EditTwiceIff | afkbot/repositories/task_flow_repo.py:796-818 | repeating an update later changes nothing if and only if it does not make a todo without a ready time |
| TaskFlow.RunKeepsInv | afkbot/repositories/task_flow_repo.py:1340-1885 | every run of the table's statements, with claims whose SELECT is of any age, keeps the claim invariant and both unique indexes |
| TaskFlow.OpKeepsIndexed | afkbot/models/task.py:31-51 | after any statement, allowed by the callers' duties or not, the unique indexes hold: what closes or touches a claim is never refused |
| TaskFlow.ChoiceIsClaimedIff | afkbot/repositories/task_flow_repo.py:1457-1562 | the chosen task is claimed if and only if its owner owns no other active task; claiming through the query is the UPDATE for the choice and its executor |
| TaskFlow.NoExecutorWorksTwice | afkbot/repositories/task_flow_repo.py:1369-1386 | in every reachable state no two claimed or running tasks share profile and executor |
| TaskFlow.EditsMoveNoCharge | afkbot/repositories/task_flow_repo.py:763-770 | editing owner or reviewer of an active task changes nobody's busyness |
| TaskFlow.DeadTokensStayDead | afkbot/repositories/task_flow_repo.py:1689-1847 | a closed token never comes back, and every later call with it changes nothing |
| TaskFlow.ClosedAtMostOnce | afkbot/repositories/task_flow_repo.py:1712-1847 | over a whole run a claim is closed at most once by finalize, release or expiry |
| TaskFlow.HeartbeatDefeatsSweep | afkbot/repositories/task_flow_repo.py:1689-1754 | after a heartbeat past the sweep's clock the sweep's release of that claim never matches, whatever others do, while its own later heartbeats stay past the clock |
| TaskFlow.SweptFromLeaseOn | afkbot/repositories/task_flow_repo.py:1712-1754 | right after a successful claim or heartbeat the sweep can release the claim exactly from the end of the lease asked for on |
| TaskFlow.LeaseIsKept | afkbot/repositories/task_flow_repo.py:1689-1754 | and in whatever run follows no sweep before that end releases it, while its own heartbeats ask for no less |
| TaskRepository.SweepUndoesClaimIff | afkbot/services/task_flow/runtime_service.py:184-192 | claiming and sweeping makes a task claimable again, charged to the same executor, if and only if the claim recorded whether it was review work, as it does when SELECT and UPDATE saw the same row, or owner and reviewer are one employee |
| TaskConflicts.RefusedChoiceStopsClaims | afkbot/services/task_flow/runtime_service.py:377-484 | while the runnable tasks stay the same, a refused choice makes every claim of every worker change nothing |
| TaskConflicts.RefusedReviewStopsOthers | afkbot/services/task_flow/runtime_service.py:377-484 | a run from the empty table after which no claim takes effect at any time, though the UPDATE would accept another runnable task |
| TaskRepository.LateClaimKeepsInvIff | afkbot/repositories/task_flow_repo.py:1509-1562 | the claiming UPDATE with a candidate selected at any earlier time keeps the invariant if and only if the executor is idle when it runs; the indexes refuse it if and only if the executor is busy or the owner's other task is active |
| TaskRepository.LateClaimsExclude | afkbot/repositories/task_flow_repo.py:1495-1562 | of two claims for one executor selected before either UPDATE the second never takes effect: its guard fails if and only if both chose one task, and otherwise the index refuses it |
| TaskRepository.TaskTable.CreateTask | afkbot/repositories/task_flow_repo.py:386-442 | adds exactly the row, or nothing when its id is taken or, for an active status, an index refuses it; the invariant holds if and only if it failed or the status is not active |
| TaskRepository.TaskTable.DeleteTask | afkbot/repositories/task_flow_repo.py:505-514 | deletes exactly the profile's row and keeps the invariant |
| TaskRepository.TaskTable.ClaimNextRunnableTask | afkbot/repositories/task_flow_repo.py:1340-1567 | returns nothing exactly when nothing is runnable, and then every due todo task has its owner at work; otherwise the optimal choice, which was due, is claimed and only its row changes, in the columns stated, or there is a conflict, exactly when the choice's owner owns another active task, and nothing changes |
| TaskRepository.TaskTable.ClaimSelectedTask | afkbot/repositories/task_flow_repo.py:1509-1562 | claims the given candidate or changes nothing, with a conflict exactly when the guard holds and an index refuses; keeps the invariant whatever happened since the SELECT |
| TaskRepository.TaskTable.MarkTaskStarted | afkbot/repositories/task_flow_repo.py:1662-1687 | starts exactly a claimed row of that token, with its time and one more attempt |
| TaskRepository.TaskTable.RefreshTaskClaim | afkbot/repositories/task_flow_repo.py:1689-1710 | moves the lease of exactly the active row of that token |
| TaskRepository.TaskTable.ReleaseExpiredTaskClaim | afkbot/repositories/task_flow_repo.py:1712-1754 | closes exactly an expired active claim; the invariant holds if and only if it failed or the new status is not active |
| TaskRepository.TaskTable.FinalizeTaskClaim | afkbot/repositories/task_flow_repo.py:1756-1806 | closes exactly an active claim, with status, times, run, error and blocking reason in their columns; the same condition |
| TaskRepository.TaskTable.ReleaseTaskClaim | afkbot/repositories/task_flow_repo.py:1808-1847 | closes exactly an active claim; the same condition |
| TaskRepository.TaskTable.ClearTaskClaim | afkbot/repositories/task_flow_repo.py:1849-1885 | clears the claim of the token's row; the invariant holds afterwards if and only if that row was not active |
| TaskRepository.TaskTable.UpdateTask | afkbot/repositories/task_flow_repo.py:724-822 | edits exactly the profile's row, or reports a conflict, only for a row that stays or becomes active with a new status or owner; the invariant holds afterwards if and only if no unclaimed row became active |
| TaskRepository.TaskTable.ListExpiredClaimedTasks | afkbot/repositories/task_flow_repo.py:1569-1601 | returns distinct expired AI claims with the earliest leases, as many as the limit allows |
| TaskRepository.TaskTable.SweepExpiredClaims | afkbot/services/task_flow/runtime_service.py:155-245 | releases all claims it lists, min(max(1, limit), n) of them, all run out, back in line as review or todo, and touches no other row; below the limit no lease that has run out is left |
| AutomationClaims.RunKeepsInv | afkbot/repositories/automation_repo_claims.py:23-330 | every run keeps: the event in progress was never processed, a claim is complete or absent, tokens are unique |
| AutomationClaims.CompletesAtMostOnce | afkbot/repositories/automation_repo_claims.py:194-231 | over a run an event completes exactly as often as it enters the processed set: at most once |
| AutomationClaims.ProcessedIsNeverClaimed | afkbot/repositories/automation_repo_claims.py:129-192 | a processed event is never claimed and never in progress again |
| AutomationClaims.LeasesExclude | afkbot/repositories/automation_repo_claims.py:51-89 | while a lease lies ahead of the claimer's clock no claim of that trigger succeeds |
| AutomationClaims.LeaseExcludesRivals | afkbot/repositories/automation_repo_claims.py:51-111 | after a successful claim or heartbeat, of a cron trigger or a webhook, no claim with a clock before the end of the lease asked for succeeds, in whatever run follows, while the claim is open and its heartbeats ask for no less |
| AutomationClaims.LeasedClaimStaysOpen | afkbot/repositories/automation_repo_claims.py:51-127 | the claim stays open until its own token closes it or a claimer comes at or after the end of the lease |
| AutomationClaims.RivalSucceedsFromLeaseOn | afkbot/repositories/automation_repo_claims.py:51-192 | right after it a claimer succeeds if and only if its clock has reached that end, the automation is active, and the trigger is due or the event new |
| AutomationClaims.SupersededTokenIsDead | afkbot/repositories/automation_repo_claims.py:167-192 | a claim that takes over an expired trigger makes the superseded token dead |
| AutomationClaims.DeadTokensStayDead | afkbot/repositories/automation_repo_claims.py:23-127 | a closed or superseded token never comes back, and calls with it change nothing |
| AutomationClaims.ClosedAtMostOnce | afkbot/repositories/automation_repo_claims.py:194-262 | a cron or webhook claim is closed at most once |
| AutomationClaims.Claims.ClaimCronExecution | afkbot/repositories/automation_repo_claims.py:51-89 | succeeds exactly for a due, unclaimed or expired trigger of an active automation, which then holds token and lease |
| AutomationClaims.Claims.MarkCronExecuted | afkbot/repositories/automation_repo_claims.py:23-49 | advances exactly the trigger that holds the token |
| AutomationClaims.Claims.RefreshCronClaim | afkbot/repositories/automation_repo_claims.py:91-111 | moves the lease of exactly the trigger that holds the token |
| AutomationClaims.Claims.ReleaseCronClaim | afkbot/repositories/automation_repo_claims.py:113-127 | frees exactly the trigger that holds the token |
| AutomationClaims.Claims.ClaimWebhookEvent | afkbot/repositories/automation_repo_claims.py:129-192 | succeeds exactly for an unprocessed event of an active automation whose trigger is idle or expired |
| AutomationClaims.Claims.CompleteWebhookEvent | afkbot/repositories/automation_repo_claims.py:194-231 | completes exactly the claimed event, which enters the processed set for the first time: the conflict branch is never taken |
| AutomationClaims.Claims.ReleaseWebhookEvent | afkbot/repositories/automation_repo_claims.py:233-262 | releases exactly the claimed event |
| AutomationClaims.Claims.MarkWebhookStarted | afkbot/repositories/automation_repo_claims.py:264-286 | stamps exactly the claimed event's trigger |
| AutomationClaims.Claims.RefreshWebhookClaim | afkbot/repositories/automation_repo_claims.py:308-330 | moves the lease of exactly the claimed event's trigger |
| TurnQueue.RunKeepsInv | afkbot/repositories/chat_session_turn_queue_repo.py:37-172 | every run keeps one running row per session, ahead of all queued rows, with unique owner tokens |
| TurnQueue.AdmissionIsFifoAndExclusive | afkbot/repositories/chat_session_turn_queue_repo.py:66-119 | in every reachable queue at most one row of a session runs and rows were started in arrival order |
| TurnQueue.KeepsIncreaseIff | afkbot/repositories/chat_session_turn_queue_repo.py:37-64 | an operation keeps the started ids of every session increasing if and only if it does not queue a row at or below a started id of its session |
| TurnQueue.StartedIdsIncreaseIff | afkbot/repositories/chat_session_turn_queue_repo.py:93-104 | over whole runs the started ids of every session increase throughout if and only if no row is queued at or below a started id of its session |
| TurnQueue.StartedIdsCanRepeat | afkbot/repositories/chat_session_turn_queue_repo.py:37-64 | a concrete run in which a reused id starts twice |
| TurnQueue.EvictedOwnersAreFenced | afkbot/repositories/chat_session_turn_queue_repo.py:121-157 | an evicted owner can neither touch nor release anything again, even when its id went to a successor |
| TurnQueue.TurnQueueRepository.EnqueueTurn | afkbot/repositories/chat_session_turn_queue_repo.py:37-64 | appends a queued row, or changes nothing when the owner token is taken |
| TurnQueue.TurnQueueRepository.TryMarkRunning | afkbot/repositories/chat_session_turn_queue_repo.py:66-119 | starts the row exactly when nothing of the session runs, it is next, and the token matches |
| TurnQueue.TurnQueueRepository.TouchTurn | afkbot/repositories/chat_session_turn_queue_repo.py:116-136 | moves the lease of exactly the owner's row |
| TurnQueue.TurnQueueRepository.ReleaseTurn | afkbot/repositories/chat_session_turn_queue_repo.py:138-151 | deletes exactly the owner's row |
| TurnPolls.InterleavingsAreRuns | afkbot/repositories/chat_session_turn_queue_repo.py:75-114 | the queue of every interleaving of reads, late UPDATEs and other statements is the queue of a run in which each poll is one step |
| TurnPolls.InterleavedAdmission | afkbot/services/session_orchestration/service.py:292-319 | so at most one turn of a session runs and turns start in arrival order in every interleaving |
| TurnPolls.LateMarkIsTryStart | afkbot/repositories/chat_session_turn_queue_repo.py:102-114 | an UPDATE, however late after its reads, does exactly what the whole poll would do at that moment |
| TurnPolls.LookAndMarkIsTryStart | afkbot/repositories/chat_session_turn_queue_repo.py:75-114 | reads with the UPDATE right behind them are the whole poll: nobody who may start is turned away |
| TurnPolls.MarkKeepsInvIff | afkbot/repositories/chat_session_turn_queue_repo.py:102-114 | the UPDATE alone keeps the queue right if and only if nothing of the session runs and the row is next when it executes |
| TurnPolls.TwoSnapshotsAdmitTwo | afkbot/repositories/chat_session_turn_queue_repo.py:75-100 | a run in which the two SELECTs see different states and two turns of a session run |
| TurnQueue.TurnQueueRepository.ReleaseStaleTurns | afkbot/repositories/chat_session_turn_queue_repo.py:153-172 | deletes exactly the stale rows of the session and counts them |
| WriteGate.RunInv | afkbot/db/session.py:306-321 | every well-nested run of every number of tasks, loops and processes keeps the lock, marker and gate invariants |
| WriteGate.GateIsExclusive | afkbot/db/session.py:306-321 | over every run there is one lease per database file across loops and processes, and one per loop without a file |
| WriteGate.HolderNeverWaits | afkbot/db/sqlite_lock.py:104-137 | a task's marker is set exactly while it owns or gives back a lease, and a holder is admitted at once and never waits for the gate |
| WriteGate.CommitsAreGated | afkbot/db/session.py:107-121 | uncommitted writes always belong to one task that owns the gate |
| WriteGate.ReleasesSucceed | afkbot/db/session.py:42-52 | the locks given back are held by the task that gives them back |
| WriteGate.LeasesAreReleasedOnce | afkbot/db/session.py:161-180 | over every run the grants of a task exceed its releases by one exactly while it owns a lease, and otherwise are equal |
| WriteGate.SpawnKeepsInvIff | afkbot/db/sqlite_lock.py:104-137 | spawning keeps the invariant if and only if no inherited marker carries the new task's ident |
| WriteGate.FinishKeepsGateIff | afkbot/db/session.py:107-141 | ending a transaction keeps all other uncommitted writes under the gate if and only if it does not give up the lease of another dirty unit of its task |
| WriteGate.OwnerFinishingFirstUncoversWrites | afkbot/db/session.py:107-141 | a run from the start in which the lease's owner may finish first and leaves a nested unit's writes outside the gate |
| WriteGate.StaleMarkerBypassesTheGate | afkbot/db/sqlite_lock.py:130-137 | a run from the start after which a stale marker admits a write without any lease |
| WriteProgress.FreeGateAdmits | afkbot/db/session.py:306-321 | in every reachable state a unit whose gate nobody is in may write after asking and taking the locks, with or without a lock file |
| WriteProgress.WaitingHasAReason | afkbot/db/session.py:306-321 | in every reachable state in which a task waits, a waiter of that database can take a lock now, or a task has the gate and can give it back, unless it is busy with another database first |
| WriteProgress.GivingBackAdmits | afkbot/db/session.py:42-52 | when the owner finishes and gives both locks back a waiter of its loop may write after taking them |
| WriteProgress.GivingBackAdmitsOtherLoops | afkbot/db/session.py:42-52 | as soon as the lock file is given back a waiter of another loop may write after taking it |
| WriteProgress.FailingFreesTheLoop | afkbot/db/session.py:306-316 | a task that fails to get the lock file leaves the loop lock to the next waiter |
| WriteProgress.CrossedOwnersWaitForEver | afkbot/db/session.py:306-321 | from every reachable state two tasks of a loop that own one database each and ask for the other's wait for ever, whatever follows |
| WriteProgress.TwoDatabasesDeadlock | afkbot/db/session.py:306-321 | a run from the start that ends in such a state |
| PythonText.StripTrims | afkbot/services/telegram_text.py:15-17 | strip keeps a trimmed slice and drops blank ends |
| PythonText.AsciiSpaces | afkbot/services/telegram_text.py:15 | which ASCII characters strip removes |
| PythonText.RFind | afkbot/services/telegram_text.py:39 | the last start of the separator that ends within the window, or -1 |
| TelegramText.FindSplitIndex | afkbot/services/telegram_text.py:36-42 | the cut lies behind the last paragraph break in the back half of the window, else behind the last line break, else behind the last space, and only without any of these at the limit |
| TelegramText.CutFacts | afkbot/services/telegram_text.py:27-32 | one cut yields a non-empty trimmed chunk within the limit, a non-empty trimmed rest, and blank text between |
| TelegramText.SplitTelegramText | afkbot/services/telegram_text.py:8-33 | chunks are non-empty, trimmed and within the limit; with the blank gaps they spell the stripped text; (chunks - 1) * (max / 2 + 1) is less than its length; only a chunk that fills the limit and has no space or line break in its back half ends inside a word |
| LogTail.SuffixLines | afkbot/services/error_logging.py:176-183 | the lines of a suffix but its first are the last lines of the whole, even when the cut falls inside CRLF |
| LogTail.AtLeastAsManyLines | afkbot/services/error_logging.py:178 | a text has at least as many lines as newlines |
| LogTail.EnoughRead | afkbot/services/error_logging.py:178-183 | a suffix with more newlines than wanted lines has the same last lines as the file |
| LogTail.SplitLinesSplits | afkbot/services/error_logging.py:183 | the lines and terminators NL, CR or CR NL spell the text, no line contains either, and no CR that ends a line is followed by a NL |
| LogTail.SplitIsUnique | afkbot/services/error_logging.py:183 | the text splits in no other way |
| LogTail.JoinedLines | afkbot/services/error_logging.py:183 | the joined lines of a text without CR are the text without its final newline |
| LogTail.TailIsSuffix | afkbot/services/error_logging.py:176-183 | the tail of a file without CR is the end of the file, cut at a line start, with as many lines as wanted |
| LogTail.TailLogFile | afkbot/services/error_logging.py:167-183 | for every file, line count and block size the result is the last lines of the whole file, without CR the end of the file itself; fewer than one line is an error |
| HistoryPrune.RoundKeepsGoal | afkbot/db/bootstrap_runtime.py:774-850 | a bounded round does not move the final state |
| HistoryPrune.RoundProgress | afkbot/db/bootstrap_runtime.py:774-850 | a round deletes something or nothing is left to delete |
| HistoryPrune.RoundsConverge | afkbot/db/bootstrap_runtime.py:117-141 | for every batch size, as many rounds as there are rows end in the same state: all old events gone, then all old unreferenced finished runs |
| HistoryPrune.RoundsLeaveNoDangling | afkbot/db/bootstrap_runtime.py:805-824 | no number of rounds leaves a task or an event pointing at a deleted run |
| HistoryPrune.PrunedMeans | afkbot/db/bootstrap_runtime.py:774-850 | the final state keeps exactly the events and entries not older than their cutoff, and the runs that are unfinished, not older than theirs, or needed by a task or a kept event |
| HistoryPrune.RoundDeletesOldest | afkbot/db/bootstrap_runtime.py:788-838 | a round deletes only rows older than their cutoff, older ones first, and leaves such a row only when the batch is full |
| HistoryPrune.RuntimeHistory.Prune | afkbot/db/bootstrap_runtime.py:117-141 | a batch size below one is an error that changes nothing; otherwise one round, with the numbers of rows gone |
| HistoryPrune.RuntimeHistory.PruneOnce | afkbot/db/bootstrap_runtime.py:774-850 | deletes the oldest rows older than the cutoffs, up to the batch size from each table, and counts them |
| HistoryPrune.RuntimeHistory.PruneAll | afkbot/db/bootstrap_runtime.py:117-141 | a caller that repeats rounds with fixed cutoffs until nothing is deleted keeps, for every batch size, exactly the rows that are not older than their cutoff or still needed |
| MemorySearch.CauchySchwarz | afkbot/repositories/memory_search.py:61-66 | the squared dot product is at most the product of the squared lengths |
| MemorySearch.ClampNeverFires | afkbot/repositories/memory_search.py:64-70 | the similarity lies in [-1, 1] before it is clamped, and the distance in [0, 2] |
| MemorySearch.DistanceSymmetric | afkbot/repositories/memory_search.py:56-70 | the distance does not depend on the order of its arguments |
| MemorySearch.MultipleDistance | afkbot/repositories/memory_search.py:56-70 | a vector is at distance 0 from its positive multiples and at distance 2 from its negative ones |
| MemorySearch.IncomparableDistance | afkbot/repositories/memory_search.py:59-65 | vectors that are empty, of different lengths or zero are at distance 1 |
| MemorySearch.RankMemoryCandidates | afkbot/repositories/memory_search.py:20-53 | returns the slice of the one stable ranking of exactly the candidates of the wanted kinds and sources with an embedding of the query's dimension |
| MemorySearch.RankingUnique | afkbot/repositories/memory_search.py:52 | there is only one ranking by distance and input position |
| MemorySearch.NearestFirst | afkbot/repositories/memory_search.py:52-53 | nothing returned is farther than anything left out |

## Left out

- TranscriptStore.JsonlStore.CreateTurnDual: row ids that are never reused, with the exact condition for any id in `DualCreateAgreesIff`.
- TranscriptMachine.RunInv: runs in which every dual-mode prune meets the condition of `PruneDualAgreesIff`; a prune that does not is exactly one after which table and mirror differ.
- TranscriptStore.JsonlStore.ListRange: that a store with stale pending ids, after a rollback, eventually shows everything committed; it shows committed turns only, and what the drain would add is missing.
- TranscriptClient.ReadTurns: stores without stale pending ids, as before.
- TranscriptClient.PruneTurns: sessions with an id, and stores without stale pending ids; without an id `EmptySessionPruneIsLost` says what happens.
- TaskEligibility.LoadMeaning: tables in which no flow has the id reserved for tasks without a flow.
- WriteProgress: which of several waiters gets a lock, and that tasks go on running.
- TranscriptStore: one store and one session at a time; several stores sharing a session would also exclude each other's pending outbox rows from a drain.
- Duplicate active tasks of a legacy SQLite database: the bootstrap excludes their owners from the unique indexes.
- The retries of `_claim_next_task` after a conflict, with a later clock and a fresh token, are further claims of a run.
- TaskRepository.TaskTable.ListExpiredClaimedTasks: equal leases are broken by creation time and id; `updated_at` is not modelled.
- WriteGate: a state machine over values instead of classes, because its point is the interleaving of tasks; after-commit callbacks, the lookup of the lock by loop id and the recognition of write statements are not in it.
- WriteGate.CommitsAreGated: well-nested units only; the exception path of `session_write_scope` rolls back after the gate is released and is not a commit.
- RunlogEvents: `list_session_events`; and the outbox protocol of the event store is a state machine over values (`RunlogMachine`), with its reads and backfill in place (`RunlogStore`).
- RunlogMachine.RunInv: runs of the caller that live in one session each, as in `Create`; what one append of any other event does is in `AppendReserved`.
- RunlogEvents.RunlogStore.MaterializeDatabaseEvents: rows that put one run into one session.
- RunlogEvents.RunlogStore.BackfillDatabaseEvents: the same.
- AutomationClaims.CompletesAtMostOnce: per lifetime of an automation; deleting a profile deletes its automations and their processed events together, which is not a step.
- The ids drawn from `.seq` files when a store has no session: their floor ignores pruned rows.
- Creation times of transcript rows are not part of the read model: backfill stamps them anew.
- Torn lines: a file append either happens or not.
- SQLAlchemy, the SQLite and PostgreSQL engines, `skip_locked`, real files and flock, platforms without `fcntl`, cancellation while the file-lock thread runs.
- Task Flow service and runtime logic beyond the sweep, dependency handling, task events and runs, queue activity aggregation.
- MemorySearch: floating-point rounding and non-finite values; square roots are parameters with their defining equation, and an embedding is absent when malformed.
- TelegramText.SplitTelegramText: limits below one, for which the loop of the original does not end.
- LogTail: the final UTF-8 decoding, a function of the bytes returned.
- CRUD repositories, ORM models, routes, CLI, settings, browser sessions, schema upgrades, credentials: I/O plumbing or easy members.
