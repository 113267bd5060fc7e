# Actor runtime and patch replay, verified in Dafny

Two parts of the repository are modelled and proved here.

**The actor runtime** (`asupersync/src/actor.rs`): a bounded mailbox with many
senders, a state cell that several parties store to, the phases of
`run_actor_loop`, the supervised restart loop that keeps one mailbox through all
incarnations, `stop`, `abort`, and the join future that aborts when it is dropped.

- `ActorModel` is a state machine. A state is everything the parties share plus the
  position of the actor task; a step is one atomic action of the task or of another
  party, and a run is any finite interleaving of enabled steps. The theorems are about
  every run: `ActorMailbox` (what becomes of messages), `ActorHooks` (order of hooks,
  the cancellation mask), `ActorWaking` (no lost stop), `ActorTermination`,
  `ActorCancel` and `ActorJoin`.
- `ActorRuntime` is the same code as an imperative program: a class whose fields every
  party updates in place, with the loops and branches of the source. A schedule says
  what the other parties, the hooks and the supervisor do in between. Every execution is
  proved to be a run of the state machine, so the theorems hold of the program.

Atomicity is chosen as the source has it. The load and the store of the start check
are two actions, and so are the two halves of `stop()` and the three parts of
`abort()`; the cell goes back to Created on a restart; `stop()` and `abort()` store
Stopping even after Stopped. Three program points at which a stop is overwritten follow
from this, and `ActorWaking` states them. Stopped is not absorbing, and no theorem
relies on that.

**Patch replay** (`frankensqlite/test.js` and the JavaScript inside
`frankensqlite/restore_full_viz.py`): three appliers of unified diffs, three
reconstructions of document snapshots with different caches, word edit distance, and
the grouping of commits.

- `Lines`, `Header`, `UnifiedDiff` (and the small `Wrappers`) say what the text of a patch is and what it means:
  all hunks replaced at once, by the line numbers of the old document. The printed form
  is that of the POSIX.1-2017 `diff` utility, section "Diff -u Output Format".
- `ArraySplice`, `PatchRows`, `PatchEdits` hold what the appliers share;
  `SynapticPatch`, `RestorePatch`, `WorkerPatch` are the appliers, as loops, each proved
  against a specification function and then against the meaning of the patch;
  `WrittenPatch` is one example in full.
- `Replay`, `SnapshotCache`, `WorkerSnapshots`, `SnapshotAgreement` are the caches, as
  classes, proved against plain replay.
- `EditDistance` and `GroupCommits` stand alone.

A patch is well-formed for a document (`Fits` and `Printable`) when its hunks are in
order and disjoint, each replaces at least one line, and context and deleted rows quote
the document. Header counts equal the counts of the body because `PrintHunks` writes
them.

## What the proofs found

- A patch text that ends in a newline adds one blank line to the document, whenever it
  has a hunk (`SynapticPatch.FinalNewline`). The worker's applier ignores
  such a row. In general rows behind the hunks are harmless if and only if they contribute
  no line or there is no hunk (`SynapticPatch.RowsAfterHunksHarmless`).
- The `\ No newline at end of file` row enters the document as a line
  (`SynapticPatch.NoNewlineMarker`).
- A hunk with an empty old range inserts one line too early, in front of the line that
  it names (`SynapticPatch.InsertionOffByOne`). One that names line 0, the top of the
  document, gives the index -1, which counts from the end: the lines land in front of the
  last one (`SynapticPatch.InsertionAtTop`). The worker clamps the index and gets the top
  right, but shares the first mistake (`WorkerPatch.AppliesInsertion`).
- A patch that creates a document of more than 10000 lines puts lines out of order,
  because the batched insertion starts from index -1 (`SynapticPatch.CreationPatch`).
- Added lines that start with `++` are lost by the older page's parser. A patch that
  leaves the last line alone comes out right if and only if it adds no such line
  (`RestorePatch.AppliesExactly`); at the last line, or by the blank line of a final
  newline, a lost one can be made good by accident (`RestorePatch.LastLineMakesGood`,
  `RestorePatch.NewlineMakesGood`). A final newline and marker rows get into its documents
  just as into the newer page's (`RestorePatch.AgreesOnTrailers`).
- The worker passes over these rows and over deleted lines that start with `--`. What it
  makes of every patch that fits is known exactly (`WorkerPatch.AppliesSegments`): each
  old range becomes a segment that can be read off the patch. One hunk, or several that
  get their lengths right, are right if and only if every segment is the new side; with
  other lengths two mistakes can cancel out (`WorkerPatch.MistakesCancelOut`).
- A row that starts with `@@` without being a header makes the older page apply the last
  hunk twice (`RestorePatch.StrayRepeatsHunk`).
- The header rows of a second file get into the document of the last hunk of the first, in
  part, on both pages (`SynapticPatch.NextFileEnters`, `RestorePatch.NextFileEnters`); the
  worker passes over them.
- Hour, quarter and five-minute keys forget the year, so the totals of a day's hours are
  the day's total and the impact of the same hours in other years
  (`GroupCommits.HoursOfDay`).
- A `stop()` between the load and the store of the start check is lost
  (`ActorWaking.StopLostInStartWindow`).
- When the supervisor stops after a panic, accepted messages that nobody has touched are
  dropped with the mailbox, without an abort (`ActorMailbox.StoppedActorDropsQueue`).
  A run drops such messages if and only if some are queued when the task is dropped or
  when it ends after a panic without a restart (`ActorMailbox.DroppedExactlyWhen`).
- A late `stop()` takes the state of an actor that has ended well back to Stopping, for
  good (`ActorJoin.StoppedNotAbsorbing`).
- After a cancellation request that lands between the loop's check and its poll, one
  more handler can start (`ActorCancel.OneMoreHandlerHappens`), but never two.

## Model

| member | source | states |
|---|---|---|
| `ActorMailbox.EveryMessageAccounted` | asupersync/src/actor.rs:782-866 | in every reachable state the accepted messages are, in FIFO order, those consumed, the one in a handler, and those queued; purging implies a cancellation; interrupted or dropped messages imply that the task is gone without Ok |
| `ActorMailbox.NoSilentDrops` | asupersync/src/actor.rs:847-866 | a run that ends with Ok, without abort and panic, has handled exactly the accepted messages in order, those accepted after the receive loop included |
| `ActorMailbox.OneCrashPerHandlerPanic` | asupersync/src/actor.rs:1150-1168 | in every run the number of messages consumed by a crash equals the number of panics inside handlers; panics in hooks consume none |
| `ActorMailbox.DroppedExactlyWhen` | asupersync/src/actor.rs:847-866 | a run drops an accepted, untouched message if and only if at some step messages are queued and the task is dropped or ends after a panic without a restart |
| `ActorMailbox.StoppedActorDropsQueue` | asupersync/src/actor.rs:1199-1206 | a concrete run without an abort in which an accepted, untouched message is lost because the supervisor stops the actor after a panic |
| `ActorMailbox.AcceptedRun` | asupersync/src/actor.rs:220-226 | the accepted messages of a run, told from its steps: every commit into an open mailbox and every try_send that finds it open and with room, in order, and nothing else |
| `ActorMailbox.ClosedForGood` | asupersync/src/actor.rs:847-852 | once closed, the mailbox stays closed, accepts nothing and grants no reservation, through every run |
| `ActorMailbox.WithinCapacity` | asupersync/src/actor.rs:220-226 | queue and reservations never exceed the capacity |
| `ActorHooks.HooksSymmetric` | asupersync/src/actor.rs:796-879 | every incarnation calls on_start, then handlers, then on_stop, or a prefix of that; an Ok result means that the last incarnation completed the sequence |
| `ActorHooks.StopHookSeesEmptyMailbox` | asupersync/src/actor.rs:847-876 | on_stop runs only with the mailbox closed and empty, in every interleaving |
| `ActorHooks.MaskBalanced` | asupersync/src/actor.rs:769-776 | the mask is one above its entry level exactly from the raise before on_stop to the drop of the guard, and at that level everywhere else, through panics, restarts and a dropped task |
| `ActorWaking.NoLostStop` | asupersync/src/actor.rs:811-820 | a reachable state with the task parked and the cell at Stopping has a wake pending or a stopper between its actions; with neither, a parked task has nothing to react to |
| `ActorWaking.OwedWakeArrives` | asupersync/src/actor.rs:258-261 | the wake_receiver call that is still owed makes a parked task pollable |
| `ActorWaking.StopOverwrittenOnlyInWindow` | asupersync/src/actor.rs:792-794 | a step takes the cell away from Stopping if and only if it is the task's own store at the start check, at a restart or at the very end |
| `ActorWaking.StopLostInStartWindow` | asupersync/src/actor.rs:792-794 | a concrete run in which stop() has returned and the task is parked with the cell at Running and no wake to come |
| `ActorWaking.StopStays` | asupersync/src/actor.rs:258-261 | a stop that is in force stays in force in every interleaving without a restart |
| `ActorWaking.StopTakesHold` | asupersync/src/actor.rs:258-261 | a stop() or abort() outside the windows, on a fresh actor as well, is in force from its store on and owes its next part |
| `ActorWaking.CellByPhase` | asupersync/src/actor.rs:792-843 | in every run the cell says the phase of the task or Stopping, and exactly the phase when nobody asks for a stop |
| `ActorWaking.LoopEndsForAReason` | asupersync/src/actor.rs:805-837 | the receive loop ends only after a cancellation, a closed mailbox, the loss of the last sender, or a stop |
| `ActorWaking.QueuedIsReceived` | asupersync/src/actor.rs:811-825 | while not cancelled, a queued message is received next, whatever the cell says, and it is the head |
| `ActorWaking.IdleSettles` | asupersync/src/actor.rs:811-820 | no busy loop: with nothing to do and left alone, the task comes to rest after at most five actions |
| `ActorWaking.WakesExactly` | asupersync/src/actor.rs:811-820 | only a pending poll registers the waker, a wake uses it up, and only the next poll of the task serves the wake |
| `ActorWaking.Balances` | asupersync/src/actor.rs:258-312 | reservations, senders and owed wake_receiver calls are counted exactly, through every run |
| `ActorTermination.EndingTerminates` | asupersync/src/actor.rs:1149-1208 | once the actor is cancelled, disconnected, closed or stopped, in every interleaving the number of task actions is at most the work left plus three per message accepted meanwhile (a stop counts for runs without a restart) |
| `ActorTermination.EndingNotStuck` | asupersync/src/actor.rs:811-820 | such an actor can always act until it is gone, unless it is parked and a stopper or aborter still owes the wake |
| `ActorTermination.RestartBookkeeping` | asupersync/src/actor.rs:1149-1208 | the factory is called 1 + restarts times and never beyond the grants; every failed incarnation panicked once; the result is Ok iff the last one did not, and otherwise carries the last panic's payload |
| `ActorTermination.AllRestartsHappen` | asupersync/src/actor.rs:1173-1196 | a run in which every restart that the supervisor can grant is used |
| `ActorCancel.OneMoreHandlerAtMost` | asupersync/src/actor.rs:804-846 | after a cancellation request at most one more handler starts in the whole rest of the run, through all restarts, unless the incarnation is in a drain it began before the request |
| `ActorCancel.LateRequestDrains` | asupersync/src/actor.rs:845-866 | in that drain no more handlers start than messages are queued plus messages still accepted |
| `ActorCancel.OneMoreHandlerHappens` | asupersync/src/actor.rs:804-826 | a concrete run that reaches the bound of one |
| `ActorCancel.CancelIsFinal` | asupersync/src/actor.rs:292-312 | in every run the cancellation flag never falls, the first reason is kept, and the flag is up exactly when there is a reason |
| `ActorCancel.CancelledExactlyWhen` | asupersync/src/actor.rs:292-312 | in every run the flag is up if and only if some step was the flag part of an abort() that found the context, or the end of the region; the reason is that of the first such step |
| `ActorCancel.AbortFindsContext` | asupersync/src/actor.rs:294-301 | while the task is there an abort() always finds the context and raises the flag |
| `ActorCancel.CancelledBeforeStart` | asupersync/src/actor.rs:796-858 | an actor cancelled before its first poll starts no handler, through all restarts; when its task ends with Ok, every accepted message has been purged, in order |
| `ActorJoin.StoppedMeansSettled` | asupersync/src/actor.rs:967-986 | state Stopped implies that the result was sent or its channel closed |
| `ActorJoin.JoinedOnce` | asupersync/src/actor.rs:359-394 | at most one join returns the result, it is the task's own, and every later poll gets PolledAfterCompletion |
| `ActorJoin.FinishedMeansSettled` | asupersync/src/actor.rs:264-267 | for the owner of the handle, is_finished holds if and only if the task has sent its result or is gone |
| `ActorJoin.DroppedJoinAborts` | asupersync/src/actor.rs:396-405 | dropping a join future starts an abort if and only if the task has neither sent its result nor gone; so never after a completed join |
| `ActorJoin.JoinCancelledMeansDropped` | asupersync/src/actor.rs:374-379 | the first completed poll of a join reports a cancellation if and only if the task was dropped on the way |
| `ActorJoin.PollJoinExactly` | asupersync/src/actor.rs:359-394 | the next poll of a join gives nothing while nothing is settled, then the task's own result or, of a dropped task, the reason of its cancellation, and then refusals |
| `ActorJoin.DroppedHandleTakesNothing` | asupersync/src/actor.rs:967-986 | once the handle is dropped the result channel is closed and stays closed |
| `ActorJoin.HandleMoves` | asupersync/src/actor.rs:273-285 | a join future lives from join() to its drop, and the handle until it is dropped, whatever the task does |
| `ActorJoin.AbortsBalance` | asupersync/src/actor.rs:292-312 | every abort, by call or by a dropped join, owes exactly one request for cancellation |
| `ActorJoin.StoppedLeftOnlyByStop` | asupersync/src/actor.rs:258-312 | in every reachable state, a step takes the cell away from Stopped if and only if it is the store of a stop() or an abort() |
| `ActorJoin.StoppedNotAbsorbing` | asupersync/src/actor.rs:258-261 | a concrete run in which an actor ends with Ok and the cell at Stopped, and a late stop() leaves the cell at Stopping with the task gone and the result still waiting |
| `ActorRuntime.Runtime.Act` | asupersync/src/actor.rs:216-312 | an operation of a sender, handle, join future or region on the shared fields is the environment step of that name |
| `ActorRuntime.Runtime.RunActorLoop` | asupersync/src/actor.rs:786-879 | under every schedule the loop's execution extends the run of the state machine, and ends returned, unwound with the payload, or left at an await |
| `ActorRuntime.Runtime.Receive` | asupersync/src/actor.rs:811-820 | the poll_fn is ready with the head of the mailbox, or ends the loop on disconnection, cancellation or a stop seen while pending |
| `ActorRuntime.Runtime.DrainMailbox` | asupersync/src/actor.rs:854-866 | the sealed mailbox is emptied, message by message, into handlers or into nothing according to the snapshot |
| `ActorRuntime.Runtime.CleanUp` | asupersync/src/actor.rs:868-878 | on_stop runs under the mask, and the guard is dropped on return and on unwinding |
| `ActorRuntime.Runtime.RunSupervisedLoop` | asupersync/src/actor.rs:1132-1211 | restarts, stops and normal ends follow the state machine and the result matches it |
| `ActorRuntime.Runtime.RunTask` | asupersync/src/actor.rs:1082-1096 | under every schedule the state at the end is reachable, so that conservation of messages, the drain promise, the hook order and the balanced mask hold of the program |
| `EditDistance.WordDistance` | frankensqlite/test.js:93-106 | the two-row loop returns the last cell of the full table |
| `EditDistance.SynapticDistance` | frankensqlite/test.js:93-106 | the page's function on two texts returns the length of a shortest script between their word lists, and zero if and only if these are equal |
| `EditDistance.DistanceIsOptimal` | frankensqlite/test.js:93-106 | some script of insertions, deletions and substitutions of that length turns one word list into the other, and none is shorter |
| `EditDistance.ShortcutIsOptimal` | frankensqlite/test.js:101-101 | taking the diagonal on equal words is the minimum over all three neighbours |
| `EditDistance.DistanceIsMetric` | frankensqlite/test.js:93-106 | zero iff equal, symmetric, triangle inequality |
| `EditDistance.CutAtWhite` | frankensqlite/test.js:94-94 | a run of white space, of any of the characters listed one by one, is one cut between the words in front and the words behind; at the ends it leaves an empty word |
| `EditDistance.OneWord` | frankensqlite/test.js:94-94 | a text without white space is one word |
| `Lines.SplitJoin` | frankensqlite/test.js:189-202 | splitting undoes joining if and only if the list is non-empty and its lines contain no newline |
| `Lines.JoinSplit` | frankensqlite/test.js:189-202 | joining undoes splitting for every text |
| `Header.ReadsPrinted` | frankensqlite/test.js:213-216 | both header patterns read the two ranges of a printed header back, with and without counts of 1, whatever section text follows |
| `Header.MatchesExactly` | frankensqlite/test.js:214-214 | the anchored expression matches exactly the rows that begin with two ranges in digits between `@@ -`, ` +` and ` @@`, and yields their numbers, with 1 for a count left out |
| `Header.MatchesLeftmost` | frankensqlite/test.js:214-214 | without the anchor it finds the leftmost such place |
| `UnifiedDiff.ReverseUndoes` | frankensqlite/test.js:206-249 | the reverse of a patch fits the patched document and gives the old one back |
| `UnifiedDiff.PatchedLength` | frankensqlite/test.js:242-245 | the length of the patched document is the old one plus the growth of all hunks |
| `ArraySplice.ReplaceSegment` | frankensqlite/test.js:227-242 | removal and chunked insertion equal one splice, for every array, every start from 0 on, every count, segment and chunk size |
| `ArraySplice.ReplaceIsSplice` | frankensqlite/test.js:227-242 | the same of the specification, starts beyond the end included |
| `ArraySplice.ReplaceAtMinusOne` | frankensqlite/test.js:217-242 | for the start -1 and every array and segment: the first chunk lands in front of the last element, and all later rows at the index chunk size minus 1 |
| `ArraySplice.CreatingRowsInOrder` | frankensqlite/test.js:227-242 | for the start -1 in an array of one element, the rows come out in order if and only if they fit one chunk or all rows from the last of the first chunk on are equal |
| `PatchRows.RawOfPrinted` | frankensqlite/test.js:208-225 | the text of a patch is read back into its headers with their body rows, whatever preamble and further rows surround them |
| `PatchEdits.OffsetRefines` | frankensqlite/test.js:206-249 | with the array equal to the replaced prefix plus the untouched suffix and the offset equal to the growth so far, the rest of the in-place edits gives the rest of the simultaneous replacement |
| `SynapticPatch.ApplySynapticPatch` | frankensqlite/test.js:206-249 | the loop over the rows computes the edits of all headers that match, with the running offset, for every text |
| `SynapticPatch.AppliesPatch` | frankensqlite/test.js:206-249 | applying the printed form of a well-formed patch gives the simultaneous replacement of its hunks |
| `SynapticPatch.ReversePatchUndoes` | frankensqlite/test.js:206-249 | a patch and its reverse, both printed, undo each other |
| `SynapticPatch.PatchRedoes` | frankensqlite/test.js:206-249 | the other way round: on every document that the reverse of a patch fits, applying the reverse and then the patch is no change |
| `SynapticPatch.AppliesRowsAfterHunks` | frankensqlite/test.js:218-225 | further rows behind the hunks contribute to the last new side exactly as body rows do |
| `SynapticPatch.HeadersDecide` | frankensqlite/test.js:213-245 | for any two headers with any bodies: the old range of the header is replaced, and the next start is moved by the difference of its counts, whatever the body holds |
| `SynapticPatch.StrayEndsPatch` | frankensqlite/test.js:213-225 | a row that starts with `@@` and is no header ends the last hunk; it and the rows behind it are passed over |
| `SynapticPatch.OddHeaderCounts` | frankensqlite/test.js:213-215 | a header behind `@@` and a blank is found, because the expression has no anchor |
| `SynapticPatch.NextFileEnters` | frankensqlite/test.js:218-225 | of the header rows of a second file, three enter the document without their first character |
| `SynapticPatch.RowsAfterHunksHarmless` | frankensqlite/test.js:218-225 | the result is right if and only if the further rows contribute no line or there is no hunk |
| `SynapticPatch.FinalNewline` | frankensqlite/test.js:206-249 | a final newline adds one blank line behind the last new side; the result is right if and only if there is no hunk |
| `SynapticPatch.NoNewlineMarker` | frankensqlite/test.js:218-225 | the marker row enters the document behind the last new side; the result is right if and only if there is no hunk |
| `SynapticPatch.InsertionOffByOne` | frankensqlite/test.js:216-217 | a hunk with an empty old range inserts in front of the line it names, if that is not line 0; the result is right if and only if every inserted line equals that line |
| `SynapticPatch.InsertionAtTop` | frankensqlite/test.js:216-242 | a hunk with an empty old range at line 0 inserts in front of the last line, for every document and insertion; the result is right if and only if the inserted rows and the lines in front of the last can change places |
| `SynapticPatch.CreationPatch` | frankensqlite/test.js:227-242 | the patch that creates a document gives its lines in order if and only if they fit one chunk or all lines from the last of the first chunk on are equal |
| `SynapticPatch.ApplyTextNewlineFree` | frankensqlite/test.js:206-249 | whatever the patch text, lines stay free of newlines |
| `RestorePatch.ParseHunks` | frankensqlite/restore_full_viz.py:1096-1112 | the line-by-line parser, which pushes a hunk when the next header starts, yields the list of the specification for every text |
| `RestorePatch.ApplyPatch` | frankensqlite/restore_full_viz.py:1083-1094 | the splices over the parsed hunks compute the edits of the specification |
| `RestorePatch.ParsesPrintedWith` | frankensqlite/restore_full_viz.py:1096-1112 | of a printed patch the parser returns every hunk, in order, with the rows that do not look like file headers, rows behind the hunks included |
| `RestorePatch.AppliesRowsAfterHunks` | frankensqlite/restore_full_viz.py:1083-1112 | rows behind the hunks join the last new side, but for those that look like file headers |
| `RestorePatch.RowsAfterHunksHarmless` | frankensqlite/restore_full_viz.py:1083-1112 | without added lines that start with `++`, the result is right if and only if these rows contribute no line or there is no hunk |
| `RestorePatch.AgreesOnTrailers` | frankensqlite/restore_full_viz.py:1083-1112 | with a final newline or marker rows the result is that of the newer page, and right if and only if there is no such row or no hunk |
| `RestorePatch.HeadersDecide` | frankensqlite/restore_full_viz.py:1083-1112 | for any two headers with any bodies: as on the newer page, but for rows that look like file headers |
| `RestorePatch.StrayRepeatsHunk` | frankensqlite/restore_full_viz.py:1100-1110 | a row that starts with `@@` and is no header lists the last hunk twice, with the rows that follow |
| `RestorePatch.OddHeaderCounts` | frankensqlite/restore_full_viz.py:1100-1103 | the same on the older page |
| `RestorePatch.NextFileEnters` | frankensqlite/restore_full_viz.py:1083-1112 | of the header rows of a second file, the one that starts with `diff --git` enters the document without its first character |
| `RestorePatch.AppliesPatch` | frankensqlite/restore_full_viz.py:1083-1112 | right for every well-formed patch in which no added line starts with `++` |
| `RestorePatch.AppliesExactly` | frankensqlite/restore_full_viz.py:1083-1112 | for every well-formed patch that leaves the last line alone, with any harmless rows behind it, right if and only if no added line starts with `++` |
| `RestorePatch.LastLineMakesGood` | frankensqlite/restore_full_viz.py:1083-1094 | a concrete patch that reaches the last line, loses an addition and comes out right |
| `RestorePatch.NewlineMakesGood` | frankensqlite/restore_full_viz.py:1083-1106 | a concrete patch that leaves the last line alone, loses an addition, ends in a newline and comes out right |
| `RestorePatch.AppliesOneHunk` | frankensqlite/restore_full_viz.py:1083-1112 | for one hunk the same without regard to the last line |
| `WorkerPatch.ParseUnifiedHunks` | frankensqlite/restore_full_viz.py:647-648 | the index-stepping parser yields the hunks of the specification for every text |
| `WorkerPatch.ApplyPatchLines` | frankensqlite/restore_full_viz.py:649-649 | the cursor walk and the clamped splices compute the edits of the specification |
| `WorkerPatch.AppliesPatch` | frankensqlite/restore_full_viz.py:647-649 | right for every well-formed patch without rows that look like file headers, blank rows and marker rows at the end included |
| `WorkerPatch.AppliesSegments` | frankensqlite/restore_full_viz.py:647-649 | for every patch that fits: each old range is replaced by the new side of the rows that are not passed over, followed by the old lines the cursor has not reached |
| `WorkerPatch.AppliesOneHunk` | frankensqlite/restore_full_viz.py:647-649 | one hunk is right if and only if that segment is its new side |
| `WorkerPatch.AppliesBalanced` | frankensqlite/restore_full_viz.py:647-649 | several hunks whose segments have the right lengths are right if and only if every segment is |
| `WorkerPatch.MistakesCancelOut` | frankensqlite/restore_full_viz.py:647-649 | a concrete patch of two hunks, both with a wrong segment, that comes out right |
| `WorkerPatch.AppliesInsertion` | frankensqlite/restore_full_viz.py:649-649 | an insertion at the top goes to the top, any other goes in front of the line that it names |
| `WorkerPatch.BodiesDecide` | frankensqlite/restore_full_viz.py:647-649 | for any two headers with any bodies: the rows walked say how many lines are replaced and how far the next start moves, whatever the header counts |
| `WorkerPatch.StrayEndsPatch` | frankensqlite/restore_full_viz.py:647-648 | a row that starts with `@@` and is no header ends the last hunk; it and the rows behind it are passed over |
| `WorkerPatch.OddHeaderIgnored` | frankensqlite/restore_full_viz.py:647-648 | a header behind `@@` and a blank is not found, because the expression is anchored |
| `WorkerPatch.NextFileIgnored` | frankensqlite/restore_full_viz.py:647-648 | the header rows of a second file are passed over |
| `WorkerPatch.OtherRowsIgnored` | frankensqlite/restore_full_viz.py:649-649 | rows behind the hunks that begin with anything but a blank, `+`, `-` or `@` are passed over |
| `WrittenPatch.WrittenOut` | frankensqlite/restore_full_viz.py:647-649 | one patch and one document letter by letter, and the document that all three appliers make of them |
| `WorkerPatch.LengthOff` | frankensqlite/restore_full_viz.py:647-649 | over the whole patch the result is longer by the skipped deletions and shorter by the skipped additions |
| `WorkerPatch.AppliersAgree` | frankensqlite/restore_full_viz.py:647-649 | the three appliers give the same lines, those the patch means |
| `Replay.CheckpointExact` | frankensqlite/test.js:186-193 | splitting a cached replay gives back the lines it was joined from, when there are any |
| `Replay.HistoryNeverEmpty` | frankensqlite/test.js:194-198 | with an applier that leaves a line, the replay of a well-formed history, with any file header rows and trailers around its hunks, never runs out of lines |
| `Replay.HistoryEnds` | frankensqlite/test.js:251-256 | behind the last patch the document stays what it is |
| `SnapshotCache.Page.FindAnchor` | frankensqlite/test.js:183-193 | the search finds the nearest cached multiple of ten at or below the index, and its lines are the plain replay |
| `SnapshotCache.Page.EachPatchCounts` | frankensqlite/test.js:194-198 | document 0 is the base document after patch 0, and each later one the document before it after its own patch |
| `SnapshotCache.Page.Request` | frankensqlite/test.js:181-196 | a call starts without touching the documents and is finished at once if and only if its own is cached; after the metrics pass it has at most index mod 10 patches to apply, for every index of the history |
| `SnapshotCache.Page.Resume` | frankensqlite/test.js:194-203 | one turn behind an await applies one patch, caches exactly the due checkpoint and the finished document, keeps every cached document the plain replay, and a finished call holds the plain replay |
| `SnapshotCache.Page.ResumeMetrics` | frankensqlite/test.js:78-90 | one turn of the metrics pass caches exactly the due checkpoint, keeps the caches right, and records the right line count, token count and impact |
| `SnapshotCache.EventLoop` | frankensqlite/test.js:181-204 | for any number of calls and the metrics pass, interleaved in any order of turns: the k-th call is for the index of the k-th call turn, and is finished exactly when its document was cached or it has been given enough turns; every finished call returned the plain replay and every cache entry equals it; a finished pass has cached every tenth document |
| `SnapshotCache.CallProgress` | frankensqlite/test.js:194-203 | at any turn, the call of an earlier turn has left what it had left when it was made, less the turns it has been given since, and never less than nothing |
| `SnapshotCache.PaceCounts` | frankensqlite/test.js:181-204 | every call is for the index of its turn, and the metrics pass takes one commit at each of its turns until there is none left |
| `SnapshotCache.Page.MetricsOfText` | frankensqlite/test.js:83-88 | the metrics of a document are the number of lines and of words of its text, and the impact of its commit |
| `SnapshotCache.WellFormedNeverEmpty` | frankensqlite/test.js:206-249 | a history of well-formed patches that leave the last line alone meets the caches' condition, with any file header rows, final newlines and marker rows |
| `SnapshotCache.CheckpointStandsForLines` | frankensqlite/test.js:186-193 | the condition is exact: a checkpoint can replace its lines under every further patch if and only if there is a line |
| `WorkerSnapshots.SnapshotWorker.DocTextAtLocal` | frankensqlite/restore_full_viz.py:651-656 | every path (cache hit, cursor step, walk from the nearest anchor) returns the plain replay; a returned document is cached and, unless it was before, under the cursor; an exception comes only from a cancellation check, leaves the cursor alone and the cache right |
| `WorkerSnapshots.SnapshotWorker.FindAnchor` | frankensqlite/restore_full_viz.py:652-654 | the anchor is the nearest cached document below the index, and its lines are the plain replay |
| `WorkerSnapshots.SnapshotWorker.OnMessage` | frankensqlite/restore_full_viz.py:658-659 | reply and visible state are those of plain replay, whatever cache and cursor hold |
| `WorkerSnapshots.Serve` | frankensqlite/restore_full_viz.py:658-659 | for every message sequence the replies are those of plain replay |
| `WorkerSnapshots.WellFormedReplayable` | frankensqlite/restore_full_viz.py:651-656 | a data set whose patches are well-formed for the worker's own replay meets the worker's condition, with rows that look like file headers, final newlines and marker rows too |
| `WorkerSnapshots.FirstPatchIgnored` | frankensqlite/restore_full_viz.py:651-655 | the worker's documents do not depend on patch 0 |
| `WorkerSnapshots.AbortedExactly` | frankensqlite/restore_full_viz.py:658-659 | in every message sequence a request is answered with an abort if and only if it passes the checks before and a cancellation of its identifier is pending: sent earlier, with no request of that identifier since |
| `WorkerSnapshots.CancelHitsOnce` | frankensqlite/restore_full_viz.py:658-659 | with any other messages in between, a cancellation makes the next request with its identifier fail, and does not abort the one after |
| `WorkerSnapshots.AnswersExactly` | frankensqlite/restore_full_viz.py:658-659 | in every message sequence, a request that gets past the checks is answered: an initialisation with its hash and number of commits, a snapshot request with the plain replay of the data set of the last initialisation |
| `WorkerSnapshots.FailsExactly` | frankensqlite/restore_full_viz.py:658-659 | the exact conditions, in the messages and earlier replies, of a missing identifier, of a worker never initialised, and of a hash other than that of the last initialisation |
| `WorkerSnapshots.NotAnsweredFails` | frankensqlite/restore_full_viz.py:658-659 | every other request fails |
| `SnapshotAgreement.RestoredPage.ReconstructSnapshot` | frankensqlite/restore_full_viz.py:1068-1081 | the older page returns the plain replay from patch 1 and caches exactly the requested documents |
| `SnapshotAgreement.FirstPatchIgnored` | frankensqlite/restore_full_viz.py:1070-1076 | the older page's documents do not depend on patch 0 |
| `SnapshotAgreement.ReplaysAgree` | frankensqlite/restore_full_viz.py:647-656 | the three appliers replay a plain history to the same lines, for every length |
| `SnapshotAgreement.TextsAgree` | frankensqlite/restore_full_viz.py:1068-1081 | with an empty patch 0 all three reconstructions give the same text for every index |
| `SnapshotAgreement.PlainReplayable` | frankensqlite/restore_full_viz.py:651-656 | a plain history with an empty patch 0 meets the worker's condition |
| `SnapshotAgreement.RepliesAgree` | frankensqlite/restore_full_viz.py:651-658 | a worker with the page's history replies to every sequence of snapshot requests with the page's texts |
| `SnapshotAgreement.PageTextsAgree` | frankensqlite/restore_full_viz.py:1068-1112 | with an empty patch 0 and no added line starting with `++`, the two pages show the same text for every index, trailers included |
| `GroupCommits.GroupCommits` | frankensqlite/test.js:311-323 | the loop's table has exactly the keys and buckets that occur, with their totals |
| `GroupCommits.Conservation` | frankensqlite/test.js:311-323 | per bucket, the totals over all keys of any unit add up to the total impact |
| `GroupCommits.RollUp` | frankensqlite/test.js:311-323 | a quarter's total is the sum of its five-minute totals, an hour's the sum of its quarters' |
| `GroupCommits.Refines` | frankensqlite/test.js:315-318 | equal five-minute keys imply equal quarter keys, and these equal hour keys |
| `GroupCommits.MinuteKeyText` | frankensqlite/test.js:315-318 | the text of an hour, quarter or five-minute key: month, day, hour and first minute in two digits each, in `MM-DD HH:mm` |
| `GroupCommits.DayKeyText` | frankensqlite/test.js:314-314 | the text of a day key: `YYYY-MM-DD` |
| `GroupCommits.MinuteKeys` | frankensqlite/test.js:317-318 | two dates share a quarter or five-minute key if and only if month, day, hour and the minute divided by 15 or by 5 agree |
| `GroupCommits.HoursOfDay` | frankensqlite/test.js:311-323 | the totals of a day's hour keys add up to the day's total plus the impact of the same hours in other years |
| `GroupCommits.HoursForgetYear` | frankensqlite/test.js:315-318 | changing the year never changes an hour key, and changes the day key if and only if the year is another |

## Left out

- The mpsc and oneshot channels, `CatchUnwind`, `Cx`, the scheduler and the supervisor appear as contracts, written at the head of `ActorModel`: a FIFO queue that refuses everything once closed, a wake during a poll forces another poll, at most a given number of restarts.
- The atomics of the state cell are sequentially consistent in the model; the source uses Acquire and Release on the single cell.
- The actor's own state, `factory()` and the tracing calls: the factory does not panic and its calls are counted. The final actor is the value `Ok`.
- A region that cancels the task is taken to schedule it, as one more wake; the region's source is not part of this model.
- `cancel_waker`: the model does not count on its wake, so `abort()` is as weak as its `wake_receiver` call. The weak reference to the context can fail to upgrade only after the task is gone.
- `ActorTermination.EndingTerminates`: hooks and handlers may be polled again without limit; these polls do not count as actions, so the bound says nothing of a hook that never returns.
- `ActorRuntime.Runtime.RunTask`: a schedule is finite; when it ends, the task is left where it waits, which is a run all the same. Sender operations that do not apply are passed over.
- `ActorTermination.EndingNotStuck`: rests on the mailbox contract that a cancelled `poll_recv` is never pending; the mailbox's source is not part of this model.
- `ActorContext`, `MailboxConfig`, `ActorId` and the encoding of states as bytes: only easy members.
- `WorkerPatch.AppliesBalanced`: no condition on each hunk alone decides patches whose segments have other lengths than the new sides, as `MistakesCancelOut` shows; `AppliesSegments` gives the whole document for these.
- `RestorePatch.AppliesExactly`: with several hunks, patches that reach the last element of the array, and rows behind the hunks that contribute lines, are outside; `LastLineMakesGood` and `NewlineMakesGood` show that the condition is not exact there.
- `SnapshotCache.Page.Request`: the bound of index mod 10 is for indices of the history; behind it the metrics pass has cached nothing.
- The older page's asynchronous reconstruction writes a finished result only, so its calls are modelled one after the other.
- The database is a fixed sequence of patch texts; `sql.js`, the DOM, charts, search and progress messages are not part of the model.
- Line breaks in the JavaScript string literals of `split` and `join` are read as newline characters.
- Snapshot indices of the pages are natural numbers; JavaScript's precision beyond 2^53 and non-integer indices are not modelled.
- `dayjs`: a date arrives as its numeric fields; parsing and time zones are not modelled, and impacts are integers.
- Algorithms that the repository describes only in its documentation (MVCC, garbage collection, WAL index, scheduler lanes and the like): no code shows them.
