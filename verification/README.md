# WeClaw agent core: a Dafny model

This project models the revisioned, epoch-guarded state machines of WeClaw's `agent/` package and proves
what every run of them keeps.  A critical section between lock and unlock is one step; RPC, disk, Host
process and peer are steps that may fail, arrive late, twice or not at all.  Each component has a pure
specification (states and steps), lemmas over all runs of it, and an imperative form (classes, loops, arrays)
whose methods are proved to be those steps.

| files | component |
|---|---|
| `Json`, `Text`, `JsonPatch`, `PatchMeaning`, `PatchEngine` | conversation documents and the in-place patch engine |
| `StateReplica`, `StoreEffects`, `GapQueue`, `ReplicaSafety`, `ReplicaFollowUps`, `ReplayChains`, `ReplicaProjection`, `BuiltStates`, `IdleLeftOver`, `StateStore` | the Desktop state cache: snapshots, patch sets, gap queue, replay, eviction |
| `Projection`, `ListedTurns`, `TurnMemory`, `ItemReports`, `EventOrder`, `ProjectionChains`, `ProjectionText`, `ProjectionTrim`, `ProjectionState` | diffing successive revisions into events |
| `DesktopClient`, `ClientEffects`, `ClientSafety`, `ClientObject` | connection epochs, waiters, teardown |
| `BroadcastQueue`, `BroadcastCoverage` | the bounded, coalescing broadcast queue, and what it delivers to the cache |
| `Gate`, `GateEffects`, `AppServerGate`, `AccountSwitch` | the permit/drain/exclusive gate and the account switch behind it |
| `Bindings`, `BindingEffects`, `BindingSafety`, `BindingAgreement`, `BindingAgent` | binding intents over two route stores |
| `InteractionBroker`, `BrokerEffects` | many frontends, one answer |
| `Bytes`, `LineTransport`, `FrameCodec` | byte framing |
| `ProcessAncestry`, `HostVerdicts` | the walk over parent processes and the classification of process groups |

## How the pieces meet

- `PatchMeaning`, `StoreEffects`, `ListedTurns`, `TurnMemory`, `ItemReports`, `ClientEffects`, `GateEffects`,
  `BindingEffects` and `BrokerEffects` say of each specification what its steps do to the fields of a state, without
  the specification's own helpers, and what follows from that over runs.
- The broadcast queue may drop and merge broadcasts.  The replica theorem asks nothing about which broadcasts
  arrive, how often, or in which order, so whatever the queue delivers is covered by it.  `BroadcastCoverage` follows
  the newest patch set of a thread through a drained queue into the cache.
- The store patches documents with the pure patch function; `PatchEngine.ApplyPatches` proves that the in-place
  engine on a deep clone computes that function and touches nothing that existed before.
- `ReplicaProjection` runs the projection inside the store: within one connection, what the store builds for a
  thread is projected as one chain, so the chain lemmas hold of what the store publishes.
- `StateStore.Store`, `ProjectionState.State`, `ClientObject.Session`, `AppServerGate.ServerGate`,
  `BindingAgent.Agent`, `InteractionBroker.Question`, `BroadcastQueue.Queue`, `LineTransport.Transport` and
  `FrameCodec.Wire` are the objects of the program.  Their methods promise the steps of the specification, so
  the run lemmas speak about every interleaving of calls.

## Where a promise does not hold as stated

Each has an instance and the exact condition under which it does hold.

- *A failed account switch keeps the gate failed.*  The switch records no failure of its own, and a forced restart
  may take a failed gate; if it gives up before doing anything it ends as available
  (agent/codex_restart.go:114-135) and the gate reopens, although the comments at agent/codex_restart.go:60-66 and
  agent/codex_app_server_gate.go:78-83 say that it stays failed.  `Gate.FailedMayReopen` and
  `AccountSwitch.ReopenOverStoppedHost` are instances.  A gate that failed with nothing in flight can be reopened if
  and only if no failure is on record (`Gate.FailedReopensExactly`), and stays closed over a run if and only if no
  forced operation of the run ends as available without a failure on record (`Gate.StaysFailedExactly`);
  `UseAccount` states which case a switch leaves.
- *Failure is sticky.*  A drain that gives up clears a failure recorded while it waited (`Gate.DrainMayReopen`).  A
  recorded failure can be cleared exactly when a drain is in flight (`Gate.ReopensExactlyByDrain`).
- *At most one maintenance operation.*  A forced exclusive may start beside another operation
  (`Gate.ForcedMayOverlap`).  Operations stay single over a run if and only if none does
  (`Gate.RunIsSingleExactly`), and permits and generations stay in order if and only if every forced exclusive
  starts with nothing in flight and no permit out (`Gate.RunIsOrderlyExactly`).
- *Routes held in both stores name the same thread.*  A runtime-only commit of a begun intent breaks this
  (agent/codex_runtime_probe.go:61 with the intent of line 37, agent/codex_runtime_probe.go:187 and 279, and
  agent/codex_runtime_turn.go:210 commit such intents).  `BindingAgreement.BegunRuntimeCommitDisagrees` is an
  instance.  The stores agree over a run if and only if no commit writes one store against a route of the other
  (`RunAgreesExactly`); that is so in every run whose commits take the intents meant for them (`RunAgrees`).
- *Delivery-unknown exactly when the frame was fully written.*  Marking goes by request id alone
  (agent/codex_desktop_client_send.go:131-140), and discovery replies are written under ids that the peer
  chooses.  `ClientSafety.ForeignIdMarks` is a run that misinforms a waiter.  The marks are exact over a run if and
  only if no frame is finished under the id of another waiter whose own frame is still to be written
  (`RunIsExactExactly`, and `RunTellsTruthExactly` for what waiters would be told); that is so when requests take ids of their own (`OwnIdsAreExact`).
- *Folding text events reproduces the text.*  Instances: a message first shown in a turn at rest
  (`ProjectionText.RestingBaselineIsSilent`), one listed twice (`RepeatedIsDoubled`), one that is emptied
  (`EmptiedIsNotTold`).  The exact condition is `ProjectReproducesExactly` for one revision and
  `FoldIsLatestTextExactly` for a chain.
- *After each applied update, more than 512 threads means that all but the current one are busy.*  Follow-ups are
  reported as applied (agent/codex_desktop_state_wire.go:79-82) and evict no thread: `IdleLeftOver.FollowUpsLeaveIdle`
  is a run for every number of threads beyond the limit.  It holds always after snapshots and patch sets, and after
  follow-ups if and only if it held before (`ReplicaSafety.EvictionBoundsExactly`); in every run whose replays do not
  fail it holds with some thread in place of the current one (`RunBoundsThreads`).
- *Replay follows the longest chain.*  Two swapped sets make the single pass stop early
  (`ReplayChains.OutOfOrderStopsEarly`).  For sets that apply cleanly and give each revision one successor, replay
  gets as far as the queue allows if and only if every revision that queued sets lead to is led to by sets that
  stand in queue order (`ReplayIsLongestExactly`); queues in stream order do, and then exactly the later sets are
  kept (`ReplayIsMaximal`).

## Model

| member | source | states |
|---|---|---|
| `JsonPatch.ApplyAllConcat` | agent/codex_desktop_patch.go:17-32 | applying p and then q is applying p + q, failures included |
| `JsonPatch.RootStaysObject` | agent/codex_desktop_patch.go:17-46 | a patch set that succeeds on an object gives an object, so the final root check never rejects |
| `JsonPatch.ReadBack` | agent/codex_desktop_patch.go:48-168 | what an add or replace wrote is what a read at the same path finds |
| `JsonPatch.ReadElsewhere` | agent/codex_desktop_patch.go:48-168 | a read beside the patched path finds what was there before, at the place it had before array items moved |
| `JsonPatch.UndoAtRestores` | agent/codex_desktop_patch.go:107-168 | each operation has an inverse operation at the same path |
| `JsonPatch.UndoAllRestores` | agent/codex_desktop_patch.go:17-32 | every successful patch set is undone by a patch set, so no patch loses more than it names |
| `JsonPatch.Index` | agent/codex_desktop_patch.go:170-196 | an accepted array index lies within the array, or at its end for additions only; `PatchMeaning.IndexExactly` says which one it is |
| `PatchMeaning.IndexExactly` | agent/codex_desktop_patch.go:170-196 | an integer, a decoded JSON number without fraction and a textual number each name exactly the position they stand for, within the array or for additions at its end |
| `PatchMeaning.NothingNamed` | agent/codex_desktop_patch.go:170-196 | negative, fractional, out-of-range and non-numeric elements fail on every array, whatever the operation |
| `PatchMeaning.LeafExactly` | agent/codex_desktop_patch.go:107-168 | an operation succeeds exactly if its element names a place: additions move later items up, removals close the gap, replacements move nothing; members are set or removed alone |
| `PatchMeaning.ChildExactly` | agent/codex_desktop_patch.go:64-82 | the selected child is the member of that name or the item at that position |
| `PatchMeaning.PatchExactly` | agent/codex_desktop_patch.go:48-168 | a patch at a path succeeds with a result if and only if the container at its end is so edited and every container on the way has that one child replaced |
| `PatchMeaning.PatchSetExactly` | agent/codex_desktop_patch.go:17-46 | a patch set succeeds with a result if and only if each patch in order leads from one document to the next; at the root only an object may be put in place |
| `PatchEngine.Clone` | agent/codex_desktop_patch.go:198-217 | a deep copy denotes the same document and consists of new containers only |
| `PatchEngine.ObjectPatch` | agent/codex_desktop_patch.go:119-143 | in-place object patch equals the pure leaf operation; fails exactly when that fails |
| `PatchEngine.ArrayPatch` | agent/codex_desktop_patch.go:145-168 | in-place array patch equals the pure leaf operation, whether or not the items move to a new container |
| `PatchEngine.PatchAt` | agent/codex_desktop_patch.go:48-117 | the recursive walk with write-back equals the pure patch at a path and touches only the tree it was given |
| `PatchEngine.ApplyOne` | agent/codex_desktop_patch.go:34-46 | one patch with root handling: root removal and non-object roots are refused |
| `PatchEngine.ApplyPatches` | agent/codex_desktop_patch.go:17-32 | the engine refines the pure patch function, whose meaning is `PatchMeaning.PatchSetExactly`; nothing that existed changes on success or failure; the result shares no container with baseline or patch values |
| `ReplicaSafety.RunIsSound` | agent/codex_desktop_state.go:113-200 | in every run, whatever arrives, identifiers match keys, each queue holds at most 300 sets and 300 patches, and no gap is silent: the cache covers a queued set or a snapshot at or above it is wanted |
| `ReplicaSafety.RunBoundsOrphans` | agent/codex_desktop_state.go:375-397 | in every run follow-ups without a cached thread never exceed 512 |
| `ReplicaSafety.RunAgrees` | agent/codex_desktop_state.go:113-200 | if every broadcast was genuine then, under loss, duplication and reordering, each cached thread is the server state at exactly its epoch and revision and each queued set is an edge of the history |
| `ReplicaSafety.RunNeverGoesBack` | agent/codex_desktop_state.go:113-200 | until evicted, a thread's (epoch, revision) never goes back |
| `ReplicaSafety.StepNeverGoesBack` | agent/codex_desktop_state.go:113-200 | no broadcast takes a cached thread back, and none changes a thread it does not name |
| `ReplicaSafety.StepKeepsSound` | agent/codex_desktop_state.go:113-200 | every broadcast, genuine or not, keeps names, gap coverage and queue bounds |
| `ReplicaSafety.StepAgrees` | agent/codex_desktop_state.go:113-200 | a genuine broadcast keeps agreement with the history, and replay of genuine sets never fails |
| `ReplicaSafety.ReplayAgrees` | agent/codex_desktop_state_queue.go:35-69 | replay of edges of the history ends in a state of the history |
| `ReplicaSafety.ReplayFacts` | agent/codex_desktop_state_queue.go:35-78 | replay keeps thread and epoch, never lowers the revision, and keeps only sets of its epoch that were queued |
| `ReplicaSafety.StepKeepsOrphans` | agent/codex_desktop_state_wire.go:58-97 | follow-ups without a cached thread never exceed 512 |
| `ReplicaSafety.EvictionBoundsExactly` | agent/codex_desktop_state.go:352-373 | after an applied update without a replay error, more than 512 threads means that all but the current one are active or have pending requests: always after snapshots and patch sets, after follow-ups if and only if it was so before |
| `ReplicaSafety.RunBoundsThreads` | agent/codex_desktop_state.go:352-373 | in every run whose replays do not fail, more than 512 cached threads means that all but one are active or have pending requests |
| `ReplicaSafety.GenuineRunBoundsThreads` | agent/codex_desktop_state.go:352-373 | that is so when every broadcast is genuine |
| `ReplicaSafety.EvictsIdleOnly` | agent/codex_desktop_state.go:352-373 | eviction removes idle threads other than the current one only |
| `ReplicaSafety.EvictionIsFrugal` | agent/codex_desktop_state.go:352-373 | eviction never goes below the limit |
| `StoreEffects.GapIsQueued` | agent/codex_desktop_state_queue.go:4-24 | news that does not continue the cached thread joins the end of its queue exactly if fewer than 300 sets wait and all patches together are at most 300; the wanted revision rises either way; nothing else changes |
| `StoreEffects.ContinuationIsApplied` | agent/codex_desktop_state.go:168-199 | a set that continues the cached thread is applied at once, if it applies and leaves the name; otherwise it changes nothing |
| `StoreEffects.ContinuationLeavesQueue` | agent/codex_desktop_state.go:168-199 | it leaves waiting sets and wanted snapshot alone |
| `StoreEffects.OldNewsIsDropped` | agent/codex_desktop_state.go:153-166 | old and nameless sets change nothing |
| `StoreEffects.AcceptedExactly` | agent/codex_desktop_state.go:113-129 | a snapshot is accepted exactly if it names a thread, carries that name and is of a later connection or a higher revision |
| `StoreEffects.SnapshotIsStored` | agent/codex_desktop_state.go:113-150 | an accepted snapshot replaces what was cached, at its revision or by waiting sets a later one; any other changes nothing |
| `StoreEffects.AppliedExactly` | agent/codex_desktop_state.go:113-200 | which broadcasts are reported as applied |
| `StoreEffects.OthersStand` | agent/codex_desktop_state.go:113-200 | a broadcast changes nothing of a thread that it neither names nor evicts |
| `StoreEffects.EvictedIsForgotten` | agent/codex_desktop_state.go:352-373 | an evicted thread leaves cache, queues, follow-ups and wanted snapshots |
| `StoreEffects.FollowUpsAreRemembered` | agent/codex_desktop_state_wire.go:58-83 | follow-ups are accepted exactly if nothing of a later connection is known, then remembered, and shown by a thread cached on their connection |
| `StoreEffects.EvictsOldestFirst` | agent/codex_desktop_state.go:352-373 | eviction takes threads that are neither current nor active nor waiting for the user, the oldest first |
| `StoreEffects.OrphansGoOldestFirst` | agent/codex_desktop_state.go:375-397 | follow-ups without a thread go oldest first, ties in lexicographic order, never the current ones |
| `StoreEffects.LessExactly` | agent/codex_desktop_state.go:385-392 | lexicographic order: the first difference decides, and a text stands before its extensions |
| `GapQueue.ReplayKeepsAhead` | agent/codex_desktop_state_queue.go:35-69 | after a replay that did not fail each set of the connection still waits or lies behind |
| `GapQueue.ReplayTakes` | agent/codex_desktop_state_queue.go:35-69 | a set that starts where the thread is gets applied, unless one before it starts there too |
| `GapQueue.ReplayFailsAt` | agent/codex_desktop_state_queue.go:35-69 | a replay fails only by a set that is next in line and breaks; it is kept behind those skipped before it, and the sets behind it are forgotten |
| `GapQueue.WaitsUntilReached` | agent/codex_desktop_state_queue.go:4-78 | in every run a waiting set goes on waiting until the cached thread has reached its revision, the thread is evicted, another connection replaces it, or a replay fails |
| `GapQueue.SnapshotReaches` | agent/codex_desktop_state.go:113-150 | a snapshot at the base of a waiting set brings the thread to its revision or beyond |
| `GapQueue.EarlySetIsReached` | agent/codex_desktop_state_queue.go:4-78 | in every run a set that arrived before its base is reached once the snapshot at its base arrives, unless one of those losses came in between |
| `IdleLeftOver.FollowUpsLeaveIdle` | agent/codex_desktop_state_wire.go:58-83 | a run whose last, applied update leaves more than the limit of threads with an idle one that is not current |
| `ReplicaFollowUps.RunFits` | agent/codex_desktop_state_wire.go:58-97 | in every run remembered follow-ups are not older than the cached connection; a thread shows exactly those of its own connection when they are remembered, and none when none are |
| `ReplicaFollowUps.RebuiltShowsExactly` | agent/codex_desktop_state_wire.go:58-97 | after every applied update the thread shows exactly the remembered follow-ups of its own connection, and none while those of a newer one are remembered |
| `ReplicaFollowUps.UpdateRemembersExactly` | agent/codex_desktop_state_wire.go:85-97 | an update forgets the thread's follow-ups exactly if they are of an older connection and leaves them otherwise; the thread shows those of its own connection |
| `ReplicaFollowUps.RunRemembers` | agent/codex_desktop_state_wire.go:58-97 | in every run remembered follow-ups stay until evicted, replaced, or their thread is cached on a later connection |
| `ReplicaFollowUps.SnapshotSettles` | agent/codex_desktop_state.go:133-150 | after an accepted snapshot a request is outstanding exactly if its target is still ahead of what replay reached; other requests stand |
| `ReplayChains.ReplayIsMaximal` | agent/codex_desktop_state_queue.go:35-78 | for sets in stream order that apply cleanly, replay reaches the end of the longest contiguous chain and keeps exactly the later sets, none applicable |
| `ReplayChains.ReplayIsLongestExactly` | agent/codex_desktop_state_queue.go:35-69 | for sets in any order that apply cleanly and give each revision one successor, replay reaches the end of the longest chain if and only if every revision that queued sets lead to is led to by sets in queue order |
| `ReplayChains.ReplayIsOrdered` | agent/codex_desktop_state_queue.go:35-69 | what replay applies is always a contiguous chain of sets in queue order |
| `ReplayChains.OutOfOrderStopsEarly` | agent/codex_desktop_state_queue.go:35-69 | two swapped sets make the single pass stop early |
| `ReplicaProjection.SessionIsChain` | agent/codex_desktop_state.go:130-135 | in every store run, from the start of a thread on a connection until it is evicted or reconnected, everything built for it, replayed sets included, is projected as one chain |
| `ReplicaProjection.SessionEndsOnce` | agent/codex_desktop_state.go:113-200 | within such a session the store publishes at most one terminal event per turn |
| `ReplicaProjection.RunShowsCached` | agent/codex_desktop_state.go:315-323 | in every run a cached thread's projection memory shows the turns of exactly the cached state |
| `ReplicaProjection.FreshExactly` | agent/codex_desktop_state.go:130-131 | a thread is projected afresh exactly when it was not cached or comes on another connection |
| `BuiltStates.SnapshotBuildsEach` | agent/codex_desktop_state.go:130-150 | an accepted snapshot has projected itself and then, one by one in queue order, each state that waiting sets lead to without a gap; the last one is what is cached, viewed and dated by the set that led to it |
| `BuiltStates.BuildsExactly` | agent/codex_desktop_state.go:113-200 | an applied set has its own result projected; everything not applied, and all follow-ups, have nothing projected |
| `StateStore.ReplayInPlace` | agent/codex_desktop_state_queue.go:35-69 | compaction into the array being read never overwrites an unread set: the result is that of replaying the original contents |
| `StateStore.Store.ApplySnapshot` | agent/codex_desktop_state.go:113-150 | the method is the snapshot step: stale and misnamed snapshots change nothing, others are stored, replayed, evicted and settled |
| `StateStore.Store.ApplyPatchSet` | agent/codex_desktop_state.go:153-200 | the method is the patch step, whose effect is stated by `StoreEffects.GapIsQueued`, `ContinuationIsApplied` and `OldNewsIsDropped`; a snapshot is requested exactly for a gap without an outstanding request |
| `StateStore.Store.QueuePatchSet` | agent/codex_desktop_state_queue.go:4-32 | the method is the enqueueing step, whose effect is stated by `StoreEffects.GapIsQueued`; a snapshot is requested once |
| `StateStore.Store.ReplayStored` | agent/codex_desktop_state_queue.go:35-78 | the stored thread and queue become those of the replay |
| `StateStore.Store.EvictIdle` | agent/codex_desktop_state.go:352-373 | removes, one by one, the oldest idle thread other than the current one while over the limit, from all maps |
| `StateStore.Store.OldestIdle` | agent/codex_desktop_state.go:352-373 | one scan in any order finds an oldest evictable thread exactly if there is one |
| `StateStore.Store.ApplyQueuedFollowUps` | agent/codex_desktop_state_wire.go:58-83 | the method is the follow-up step: older epochs are ignored, the cached thread is updated only for its own epoch |
| `StateStore.Store.EvictOrphans` | agent/codex_desktop_state.go:375-397 | removes the oldest orphan follow-ups, ties by identifier, never the current one, while over the limit |
| `ProjectionChains.AtMostOneEnd` | agent/codex_desktop_projection.go:177-219 | along any chain of projections a turn yields at most one terminal event |
| `ProjectionChains.EndOnlyAfterActive` | agent/codex_desktop_projection.go:177-219 | a terminal event is preceded by a revision that showed the turn active, and the revision shows it ended and ready |
| `ProjectionChains.ExactlyOneEnd` | agent/codex_desktop_projection.go:37-90 | a turn first seen active, then active, absent or ended without its answer, is reported exactly once: at its first ready terminal sighting |
| `ProjectionChains.EndsAreTruthful` | agent/codex_desktop_projection.go:222-232 | completed is reported only with a final answer, error only for another terminal status and with the turn's own error text if it has one |
| `ProjectionChains.StartedExactly` | agent/codex_desktop_projection.go:180-185 | starts are reported exactly of turns shown active and not remembered active, once for each time the turn is listed |
| `ProjectionChains.MemoryMeansActive` | agent/codex_desktop_projection.go:71-90 | tombstones, candidates and remembered activity go back to a revision that showed the turn active |
| `ProjectionChains.AbsentStep` | agent/codex_desktop_projection.go:71-90 | a revision that does not show a turn keeps everything remembered about it and reports no end of it |
| `ProjectionChains.PassEffect` | agent/codex_desktop_projection.go:177-219 | what a pass remembers of a turn and which terminal events it reports is that of one visit, however often the turn is listed |
| `ProjectionChains.ShownConsistent` | agent/codex_desktop_projection.go:51-68 | the window's order and map name the same turns, each under its own identifier |
| `ListedTurns.WindowLists` | agent/codex_desktop_projection.go:51-68 | the window lists named turns in listing order, and all of them if they are at most 200 |
| `ListedTurns.WindowShows` | agent/codex_desktop_projection.go:51-68 | a turn of the window has status, error text and items of its last listing; with at most 200 named turns each listed turn is in it, and a running one always |
| `ListedTurns.BuildShows` | agent/codex_desktop_projection.go:147-164 | a turn is what its listing says: named items in listing order, each as listed last |
| `ListedTurns.SightedExactly` | agent/codex_desktop_projection.go:51-68 | with at most 200 named turns a turn is shown if and only if some listing names it |
| `ListedTurns.StartReportedExactly` | agent/codex_desktop_projection.go:180-185 | a start is reported if and only if the turn is listed as running and was not remembered so; with at most 200 named turns once per listing |
| `ListedTurns.NewTurnStarts` | agent/codex_desktop_projection.go:180-185 | in a chain, a turn listed for the first time and running is reported as started |
| `ListedTurns.RunningOnIsSilent` | agent/codex_desktop_projection.go:180-185 | in a chain, a turn that runs on is not reported again, and one that does not run never |
| `ListedTurns.AnsweredExactly` | agent/codex_desktop_projection.go:222-232 | a turn has a final answer exactly if its listing holds one |
| `ListedTurns.EndReportedOnce` | agent/codex_desktop_projection.go:37-219 | in a chain, a turn first listed as running, and then running, unlisted or completed without an answer, is reported as ended exactly once, at the first revision that lists it as concluded, and as that listing says |
| `TurnMemory.ReportedExactly` | agent/codex_desktop_projection.go:193-217 | an end is reported exactly when due; a turn counts as reported from then on, or from the first revision if that shows it over |
| `TurnMemory.AwaitsAnswerExactly` | agent/codex_desktop_projection.go:193-217 | a turn waits for its answer exactly from the revision that shows it over without one until its end is reported or it is shown as not over |
| `TurnMemory.VanishedExactly` | agent/codex_desktop_projection.go:71-90 | a turn is remembered as vanished, as it was shown last, exactly from the revision that stops showing it while it ran until one shows it running or over |
| `TurnMemory.OverAtFirstIsSilent` | agent/codex_desktop_projection.go:193-197 | in a chain, a turn over in the first revision is never reported as ended |
| `TurnMemory.VanishedIsRemembered` | agent/codex_desktop_projection.go:71-90 | in a chain, a turn that vanished while it ran is remembered as it was then, however many revisions go by |
| `ItemReports.ItemEventExactly` | agent/codex_desktop_projection.go:235-315 | an item event is reported if and only if an item of a turn in the window calls for it, given what was remembered of that item |
| `EventOrder.EventsInOrder` | agent/codex_desktop_projection.go:177-259 | events come turn by turn in listing order; of each turn first the start, then its items in listing order, then the end; each listing accounts for at most one event of its stage |
| `ProjectionText.FoldIsLatestTextExactly` | agent/codex_desktop_projection.go:235-299 | while an item stays, a reader that starts with nothing holds its latest text after every revision if and only if every revision tells it |
| `ProjectionText.FoldIsLatestText` | agent/codex_desktop_projection.go:235-299 | that is so for a message listed once, not emptied and not first shown in a turn at rest |
| `ProjectionText.ProjectReproducesExactly` | agent/codex_desktop_projection.go:177-299 | the events of one revision take a reader from the remembered text to the shown one if and only if the text is the same, or the turn is audible, the item is a message with text, and it is listed once or complete or rewritten |
| `ProjectionText.StepReproducesExactly` | agent/codex_desktop_projection.go:275-299 | the same for the events of one item sent any number of times |
| `ProjectionText.RestingBaselineIsSilent` | agent/codex_desktop_projection.go:186-191 | a message first shown in a turn at rest is not told |
| `ProjectionText.RepeatedIsDoubled` | agent/codex_desktop_projection.go:235-259 | a message listed twice is told twice |
| `ProjectionText.EmptiedIsNotTold` | agent/codex_desktop_projection.go:276-278 | a message that becomes empty is not told |
| `ProjectionText.HearProject` | agent/codex_desktop_projection.go:177-259 | of all events of a revision the reader of an item hears exactly that item's own, as often as the item is listed |
| `ProjectionTrim.TrimKeeps` | agent/codex_desktop_projection_values.go:186-215 | trimming keeps a subsequence with every active turn, drops no turn newer than a kept idle one, and keeps map and order in step |
| `ProjectionTrim.TrimSize` | agent/codex_desktop_projection_values.go:186-215 | with distinct identifiers exactly max(200, active) turns remain of more than 200 |
| `ProjectionState.ReadTurn` | agent/codex_desktop_projection.go:147-164 | the item loop builds the turn: the last item of a name counts, nameless ones are skipped |
| `ProjectionState.FindFinalAnswer` | agent/codex_desktop_projection.go:222-232 | the loop finds whether some listed item is a final answer |
| `ProjectionState.ProjectItems` | agent/codex_desktop_projection.go:235-259 | the item loop emits the ordered diff |
| `ProjectionState.CarryTombstones` | agent/codex_desktop_projection.go:71-90 | the map loops bury what vanished active and revive what is active again, in any order |
| `ProjectionState.State.constructor` | agent/codex_desktop_projection.go:51-68 | reading and trimming gives the specified window, which `ListedTurns.WindowLists` and `WindowShows` state of the listing |
| `ProjectionState.State.ChooseTurns` | agent/codex_desktop_projection_values.go:186-200 | the two loops choose the active turns and the newest others |
| `ProjectionState.State.FilterTurns` | agent/codex_desktop_projection_values.go:203-215 | in-place filtering of order and maps |
| `ProjectionState.State.Conclude` | agent/codex_desktop_projection.go:193-217 | the terminal, candidate and tombstone updates of one turn are those of the per-turn automaton |
| `ProjectionState.State.ProjectEvents` | agent/codex_desktop_projection.go:177-219 | the turn loop is the specified pass |
| `ProjectionState.ProjectSnapshot` | agent/codex_desktop_projection.go:37-48 | building, recalling and diffing is the projection that the chain and listing lemmas speak about |
| `ClientSafety.RunTellsOnce` | agent/codex_desktop_client_state.go:9-175 | in every run each waiter is sent at most one result, so no send on its one-slot channel blocks, and a waiter still registered has been sent none |
| `ClientSafety.RunIsExactExactly` | agent/codex_desktop_client_send.go:91-140 | over every run the written marks are exact if and only if no frame is finished under the id of another waiter with a frame still to be written; then a waiter told of a lost connection is told delivery-unknown exactly when its frame was fully written |
| `ClientSafety.RunTellsTruthExactly` | agent/codex_desktop_client_state.go:108-175 | over every run a teardown at any moment would tell each waiter delivery-unknown exactly when its frame was fully written, under exactly the same condition |
| `ClientSafety.OwnIdsAreExact` | agent/codex_desktop_client_send.go:45-140 | that is so when requests take ids of their own |
| `ClientSafety.MarkIsExactExactly` | agent/codex_desktop_client_send.go:131-140 | a finished write keeps the marks exact if and only if its id belongs to no other unwritten waiter |
| `ClientSafety.ForeignIdMarks` | agent/codex_desktop_client_read.go:106-115 | for any id, a run from the start in which a discovery reply under a waiter's id ends with the waiter told delivery-unknown though its frame was never written |
| `ClientSafety.TeardownIsExact` | agent/codex_desktop_client_state.go:108-166 | teardown of the current connection decides a send for every registered waiter and for nobody else; a stale snapshot changes nothing |
| `ClientSafety.GoneStaysGone` | agent/codex_desktop_client_state.go:87-101 | a snapshot of a connection that is gone never matches again |
| `ClientSafety.StepKeepsConnecting` | agent/codex_desktop_client_state.go:178-228 | one dial at a time; waiters exist only on a connection; a new connection starts without any |
| `ClientEffects.MatchesExactly` | agent/codex_desktop_client_state.go:80-101 | a snapshot may be used exactly while its connection stands on an open, initialized client; one taken for initialization also before that |
| `ClientEffects.ConnectionSteps` | agent/codex_desktop_client_state.go:178-228 | when dialing may begin, and what installing and initializing change |
| `ClientEffects.Connects` | agent/codex_desktop_client_state.go:178-228 | from any open client without a connection a dial that succeeds and is initialized connects it under the next epoch |
| `ClientEffects.RegisterExactly` | agent/codex_desktop_client_state.go:9-34 | a waiter is registered exactly on a usable connection and under a free id |
| `ClientEffects.RemoveExactly` | agent/codex_desktop_client_state.go:37-53 | a waiter that gives up leaves its place, unless another has it; everybody else stays |
| `ClientEffects.RespondExactly` | agent/codex_desktop_client_read.go:46-89 | a response takes the waiter of its id out and decides to send to it; without one nothing happens |
| `ClientEffects.MarkExactly` | agent/codex_desktop_client_send.go:131-140 | a written frame marks the call and the discovery of its id and nobody else |
| `ClientEffects.DisconnectExactly` | agent/codex_desktop_client_state.go:118-140 | losing the current connection empties the table and hands out its waiters; losing another changes nothing |
| `ClientEffects.CloseExactly` | agent/codex_desktop_client.go:153-163 | closing says so and changes nothing else; from then on nobody dials, registers or writes |
| `ClientEffects.WriteEnds` | agent/codex_desktop_client_send.go:91-129 | a frame written whole is marked; one that failed takes its own connection down and its waiters with it |
| `ClientEffects.RequestIsAnswered` | agent/codex_desktop_client_send.go:45-64 | on a connected client a request under a free id is registered, written once, marked and, if the peer answers, told so |
| `ClientObject.FailPending` | agent/codex_desktop_client_state.go:160-175 | every detached waiter gets one result into an empty slot, delivery-unknown exactly if marked |
| `ClientObject.Session.Register` | agent/codex_desktop_client_state.go:9-34 | registers a new waiter exactly when the connection matches and the id is free |
| `ClientObject.Session.MarkWritten` | agent/codex_desktop_client_send.go:131-140 | marks whoever waits under the id, as call or as discovery |
| `ClientObject.Session.Respond` | agent/codex_desktop_client_read.go:46-89 | wakes the one waiter of the id with an empty slot and leaves the others alone |
| `ClientObject.Session.Teardown` | agent/codex_desktop_client_state.go:108-175 | matching teardown completes every waiter; stale teardown completes none and changes nothing |
| `ClientObject.Session.BeginConnect` | agent/codex_desktop_client_state.go:178-192 | one connection attempt at a time |
| `ClientObject.Session.Install` | agent/codex_desktop_client_state.go:202-214 | a new connection takes the next epoch unless the client is closed |
| `ClientObject.Session.FinishInitialize` | agent/codex_desktop_client_state.go:217-228 | only the connection that was initialized becomes connected |
| `BroadcastQueue.RunIsSound` | agent/codex_desktop_client_broadcast.go:13-93 | in every run at most 256 broadcasts wait, and each (epoch, method, thread) is held and delivered in arrival order |
| `BroadcastQueue.NewestSurvives` | agent/codex_desktop_client_broadcast.go:13-47 | while no oldest is dropped, every broadcast is delivered, waits, or was superseded by a newer one of its topic |
| `BroadcastQueue.EnqueueExactly` | agent/codex_desktop_client_broadcast.go:13-48 | with fewer than 256 waiting a newcomer joins the end and all are kept; a full queue puts it in the place of the newest of its topic, or drops the oldest |
| `BroadcastQueue.NothingIsLostWithRoom` | agent/codex_desktop_client_broadcast.go:13-93 | in every run in which none arrives at a full queue, all broadcasts are delivered or wait, each in its place |
| `BroadcastQueue.DeliverExactly` | agent/codex_desktop_client_broadcast.go:83-93 | delivery takes the oldest of what waits |
| `BroadcastCoverage.NewestPatchIsKept` | agent/codex_desktop_client_broadcast.go:13-93 | when the queue has been drained without an oldest-drop since, the newest broadcast of its topic, a genuine patch set whose connection still stood, has reached the store, and unless its thread was evicted since the cache has reached its revision or a newer connection, or a snapshot at or above it is wanted |
| `BroadcastCoverage.SeenIsKept` | agent/codex_desktop_state.go:153-200 | a genuine patch set the store has seen stays covered until its thread is evicted, as long as connections do not go back |
| `BroadcastCoverage.LineRises` | agent/codex_desktop_client_broadcast.go:13-47 | coalescing and dropping keep broadcasts of later connections behind those of earlier ones |
| `BroadcastQueue.Enqueue` | agent/codex_desktop_client_broadcast.go:13-32 | the queue contains what was just enqueued and stays bounded |
| `BroadcastQueue.EnqueueInOrder` | agent/codex_desktop_client_broadcast.go:13-47 | append, replacement and oldest-drop each keep arrival order per topic |
| `BroadcastQueue.Queue.FindNewest` | agent/codex_desktop_client_broadcast.go:36-47 | the search from the end finds the newest of the topic |
| `BroadcastQueue.Queue.ShiftIn` | agent/codex_desktop_client_broadcast.go:24-27 | the overlapping copy drops exactly the oldest |
| `BroadcastQueue.Queue.Push` | agent/codex_desktop_client_broadcast.go:13-28 | the in-place queue refines the enqueue function |
| `BroadcastQueue.Queue.Pop` | agent/codex_desktop_client_broadcast.go:83-93 | takes the oldest |
| `Gate.RunIsAccounted` | agent/codex_app_server_gate.go:40-233 | in every run activeTurns is the number of permits out, and a running gate has no failure on record |
| `Gate.RunIsSingleExactly` | agent/codex_app_server_gate.go:40-208 | over every run operations never overlap and no permit is granted during one if and only if no forced exclusive starts beside another operation |
| `Gate.RunIsOrderlyExactly` | agent/codex_app_server_gate.go:40-208 | over every run live permits carry the current generation and no operation touches the runtime beside a live permit if and only if every forced exclusive starts with nothing in flight and no permit out |
| `Gate.FailureIsSticky` | agent/codex_app_server_gate.go:84-126 | after a failure with no drain in flight no later acquire succeeds, forced exclusives included |
| `Gate.ReopensExactlyByDrain` | agent/codex_app_server_gate.go:129-208 | a gate with a recorded failure can reopen if and only if a drain is in flight |
| `Gate.DrainMayReopen` | agent/codex_app_server_gate.go:129-196 | a run from the start in which a drain that gives up clears a recorded failure and a turn is admitted |
| `Gate.ForcedMayOverlap` | agent/codex_app_server_gate.go:84-99 | a forced exclusive may start beside another operation |
| `Gate.NoLostWakeUp` | agent/codex_app_server_gate.go:165-254 | whoever waits is woken before the phase it saw changes and before a turn ends |
| `Gate.OrderBreaksExactly` | agent/codex_app_server_gate.go:84-99 | the one step that breaks the order of operations, permits and generations |
| `Gate.StaysFailedExactly` | agent/codex_app_server_gate.go:84-116 | a gate that failed with nothing in flight stays closed over a run if and only if no forced operation ends as available while no failure is on record |
| `Gate.FailedReopensExactly` | agent/codex_app_server_gate.go:84-116 | such a gate can be reopened if and only if no failure is on record |
| `Gate.FailedMayReopen` | agent/codex_restart.go:114-135 | a run from the start in which an unavailable outcome is followed by a forced exclusive that ends as available, and a turn is admitted |
| `GateEffects.TurnsComeAndGo` | agent/codex_app_server_gate.go:40-62 | a turn is admitted exactly while the gate runs, under the current generation, and its permit comes back once |
| `GateEffects.OperationsBegin` | agent/codex_app_server_gate.go:64-163 | when exclusive, forced exclusive and drain may begin; each closes the gate and keeps everything else |
| `GateEffects.ExclusiveEnds` | agent/codex_app_server_gate.go:102-118 | an exclusive reopens the gate exactly if the runtime is available and no failure is on record; the generation grows exactly if it also committed |
| `GateEffects.DrainGoesOn` | agent/codex_app_server_gate.go:143-196 | a drain waits for the last turn before it restarts; giving up before reopens the gate |
| `GateEffects.RestartEnds` | agent/codex_app_server_gate.go:198-209 | a restart that worked reopens the gate with a new generation; one that did not leaves it failed, with generation, permits and recorded failure as they were |
| `GateEffects.FailedRestartStaysClosed` | agent/codex_app_server_gate.go:129-209 | in every run, after a restart that did not work with nothing else in flight no turn is admitted until a forced operation ends as available without a failure on record |
| `GateEffects.FailedRestartExactly` | agent/codex_app_server_gate.go:129-209 | over a run that begins with such an end the gate stays closed if and only if no forced operation ends so |
| `GateEffects.ReleasesMakeRoom` | agent/codex_app_server_gate.go:64-76 | while the gate runs, giving back the permits that are out makes room for an exclusive |
| `AppServerGate.ServerGate.TryAcquire` | agent/codex_app_server_gate.go:40-61 | one look at the gate: a permit of the current generation, a reason to wait, or the recorded failure |
| `AppServerGate.Permit.Release` | agent/codex_app_server_gate.go:223-233 | only the first release of a permit counts |
| `AppServerGate.ServerGate.EndExclusiveWith` | agent/codex_app_server_gate.go:102-118 | reopens only an available gate without a recorded failure; the generation grows exactly on commit |
| `AppServerGate.ServerGate.EndRestart` | agent/codex_app_server_gate.go:198-209 | a restart that worked opens the gate, clears the failure and starts a generation; one that did not leaves it failed with all else unchanged; either way waiters are woken |
| `AccountSwitch.Machine.UseAccount` | agent/codex_account.go:330-553 | for every schedule of failures: exactly when the gate reopens, and then auth file, Host and active profile are all the target's or all as before; otherwise it has failed and can be reopened exactly if no failure was reported; from every moment in between a start finds one whole account or never admits a turn |
| `AccountSwitch.Machine.SwitchHost` | agent/codex_account.go:475-545 | after the Host stop the journal on disk reads switching or rollback_failed until a verified success or a complete rollback is flushed; exactly which schedules switch, roll back or fail |
| `AccountSwitch.Machine.Rollback` | agent/codex_account.go:489-506 | a rollback is available exactly if auth, Host and profile are restored and recorded; otherwise the journal stays unsafe |
| `AccountSwitch.Machine.RestoreRuntime` | agent/codex_account.go:569-598 | success means the previous auth file is back and the Host was verified with the previous account |
| `AccountSwitch.RecoverableRestartsSafely` | agent/codex_runtime_recovery.go:59-120 | no run of the gate that a start on a recoverable disk begins with ever admits a turn, forced operations included, unless the disk holds one whole account |
| `AccountSwitch.RecordDecidesStart` | codexauth/types.go:40-50 | a start admits no turn in any run if and only if it finds the record of an interrupted switch or of a failed rollback |
| `AccountSwitch.EveryStepCounts` | agent/codex_account.go:471-552 | a switch works only if each of its steps does and the Host comes up with the target account |
| `AccountSwitch.EveryStepBackCounts` | agent/codex_account.go:569-598 | and so for a rollback |
| `AccountSwitch.StopsShortExactly` | agent/codex_account.go:349-478 | which failed checks keep a switch from touching the Host |
| `AccountSwitch.ReopenOverStoppedHost` | agent/codex_restart.go:114-135 | a failed switch followed by a forced restart that gives up leaves the gate open with no Host running |
| `BindingSafety.CommitIsNewest` | agent/codex_binding_intent.go:22-242 | a commit that succeeds holds the newest revision: since its intent was taken the conversation was neither begun again nor cleared, and its thread neither archived nor brought back |
| `BindingSafety.RunGrows` | agent/codex_binding_intent.go:244-276 | revisions of both stores and lifecycles are never reused, over every run |
| `BindingAgreement.RunAgreesExactly` | agent/codex_binding_intent.go:73-242 | from stores that agree, in every interleaving and whatever intents are committed how, routes held in both stores name the same thread throughout if and only if no commit writes one store against a route of the other |
| `BindingAgreement.RunAgrees` | agent/codex_binding_intent.go:73-242 | that is so when thread commits take begun, cleared or current intents and runtime-only commits current or observed ones |
| `BindingAgreement.CommitWritesBoth` | agent/codex_binding_intent.go:177-217 | a thread commit that succeeds leaves both stores with its route and touches no other conversation; one that skips the registry exactly if the registry already held the route |
| `BindingAgreement.RuntimeCommitAgreesExactly` | agent/codex_binding_intent.go:162-175 | a runtime-only commit keeps agreement if and only if the agent's own store holds no other thread |
| `BindingAgreement.BegunRuntimeCommitDisagrees` | agent/codex_runtime_probe.go:37-69 | a runtime-only commit of a begun intent makes the stores disagree |
| `BindingAgreement.ObservedLocalStands` | agent/codex_binding_intent.go:110-155 | while the revision of a first observation stands, so does the local route it saw |
| `BindingAgreement.RunAvoidsArchived` | agent/codex_thread_archive.go:101-150 | whatever is committed when, no route of either store leads to an archived thread |
| `BindingAgreement.ArchiveUnroutes` | agent/codex_thread_archive.go:101-150 | archiving removes exactly the routes to the thread, from both stores |
| `BindingEffects.BeginAdvances` | agent/codex_binding_intent.go:22-42 | beginning takes a revision of both stores newer than all they knew and touches no route; the intent holds both |
| `BindingEffects.ClearUnroutes` | agent/codex_binding_intent.go:47-68 | a clear removes the conversation from the routes of both stores, with new revisions; all other routes stand |
| `BindingEffects.ClearHolds` | agent/codex_binding_intent.go:47-242 | in every run, after a clear neither store routes the conversation before a commit succeeds whose intent was taken at the clear or later |
| `BindingEffects.CurrentExactly` | agent/codex_binding_intent.go:73-104 | a current intent is handed out exactly for a route that both stores hold to a thread that is not archived; revisions are supplied only where missing |
| `BindingEffects.ObservedExactly` | agent/codex_binding_intent.go:110-155 | an observation is taken up exactly for an unarchived thread that no other local route contradicts, with the registry on it or the conversation never begun nor cleared; what the intent then expects |
| `BindingEffects.ThreadCommitExactly` | agent/codex_binding_intent.go:177-242 | a thread commit succeeds exactly if nothing the intent relies on has changed and the registry does not refuse; then it sets its routes and no other |
| `BindingEffects.RuntimeCommitExactly` | agent/codex_binding_intent.go:162-175 | so does a runtime-only commit, which leaves the own store alone |
| `BindingEffects.UndisturbedCommitSucceeds` | agent/codex_binding_intent.go:22-242 | in every run a begun intent that nobody disturbed can be committed, and then both stores hold its route |
| `BindingEffects.ArchiveMarks` | agent/codex_thread_archive.go:101-150 | archiving marks the thread in both views and gives it a new lifecycle; bringing it back unmarks it with another |
| `BindingEffects.ForgetAdvances` | agent/codex_thread_archive.go:134-150 | each conversation unrouted by archiving gets a revision newer than all the store knew; the others keep route and revision |
| `BindingEffects.ArchiveOutdates` | agent/codex_thread_archive.go:101-150 | archiving outdates every intent for a conversation that either store routed to the thread |
| `BindingAgent.RouteStore.ForgetThread` | agent/codex_thread_archive.go:134-150 | the map loop visits exactly the conversations routed to the thread, each removal with a new revision |
| `BindingAgent.Agent.Begin` | agent/codex_binding_intent.go:22-42 | takes the newest revision of both stores |
| `BindingAgent.Agent.Invalidate` | agent/codex_binding_intent.go:47-68 | the method is the clear step: a new revision of both stores and no route in either, as `BindingEffects.ClearUnroutes` and `ClearHolds` state |
| `BindingAgent.Agent.Current` | agent/codex_binding_intent.go:73-104 | an intent only for a route both stores hold, without a new generation |
| `BindingAgent.Agent.Observe` | agent/codex_binding_intent.go:110-155 | an existing registry route or first news; a cleared conversation is not first news |
| `BindingAgent.Agent.CommitThread` | agent/codex_binding_intent.go:177-217 | succeeds exactly when the step does and changes both stores or nothing; the second revision check cannot fail |
| `BindingAgent.Agent.CommitRuntime` | agent/codex_binding_intent.go:162-175 | changes the registry only, or nothing |
| `BindingAgent.Agent.RunOwnerCommit` | agent/codex_desktop_owner.go:65-201 | claim and bind succeed only at the intent's registry revision; a claim also needs a thread that is not archived |
| `BindingAgent.Agent.Archive` | agent/codex_thread_archive.go:101-150 | both stores forget the thread and its lifecycle advances |
| `InteractionBroker.RunIsSound` | agent/codex_interaction_broker.go:87-160 | for any number of submitters and resolutions: at most one respond at a time, at most one ever succeeds, at most one submit returns nil, the resolved channel is closed exactly once and exactly when the question is settled, and nobody waits for an attempt that is neither going on nor over |
| `InteractionBroker.NobodyStartsLate` | agent/codex_interaction_broker.go:87-160 | no respond starts after resolution, over the rest of every run |
| `InteractionBroker.SettledIsFinal` | agent/codex_interaction_broker.go:145-160 | a settled question stays as it was settled |
| `BrokerEffects.EnterExactly` | agent/codex_interaction_broker.go:87-118 | a submitter claims a pending question, waits for the attempt in progress, or is told how the question was settled |
| `BrokerEffects.FinishExactly` | agent/codex_interaction_broker.go:120-141 | an attempt that nobody pre-empted settles the question if it succeeds and leaves it open if it fails; otherwise its submitter is told how it was settled |
| `BrokerEffects.ResolveExactly` | agent/codex_interaction_broker.go:145-160 | a resolution settles an open question and leaves a settled one alone |
| `BrokerEffects.FailureLeavesOpen` | agent/codex_interaction_broker.go:120-141 | after a failed attempt the next submitter, or one that waited, gets to respond |
| `BrokerEffects.OpenStaysAnswerable` | agent/codex_interaction_broker.go:87-141 | from every reachable state with the question open a newcomer can still answer it and return nil |
| `InteractionBroker.Question.Begin` | agent/codex_interaction_broker.go:94-118 | the question is claimed exactly when it is pending |
| `InteractionBroker.Question.Conclude` | agent/codex_interaction_broker.go:120-141 | nil exactly for a success that nobody pre-empted; each channel is closed once |
| `InteractionBroker.Question.Settle` | agent/codex_interaction_broker.go:145-160 | the first resolution settles and closes, later ones do nothing |
| `LineTransport.WritesAreLines` | agent/codex_app_server_host.go:807-844 | however a stream is cut into writes, the messages are its non-empty lines, one trailing CR removed, in order, and the buffer is its unterminated tail |
| `LineTransport.HasLines` | agent/codex_app_server_host.go:807-844 | every stream has such a decomposition, so the theorem covers every stream |
| `LineTransport.MessageExactly` | agent/codex_app_server_host.go:807-844 | exactly one trailing CR is taken off; a line without one is sent as it is; only a line that is empty then is not sent |
| `LineTransport.ChunksAreIrrelevant` | agent/codex_app_server_host.go:807-844 | writing chunk by chunk is writing the whole stream |
| `LineTransport.Transport.Write` | agent/codex_app_server_host.go:807-844 | succeeds exactly if the connection carries the deadline and every message, and then the complete lines are sent; otherwise the transport is closed after exactly the messages carried |
| `FrameCodec.StreamRoundTrip` | agent/codex_desktop_frame.go:16-48 | any sequence of valid frames reads back frame for frame |
| `FrameCodec.CutStreamReadsPrefix` | agent/codex_desktop_frame.go:16-34 | a stream cut anywhere reads back the frames before the cut, and a cut inside a frame is reported |
| `FrameCodec.HeaderRoundTrip` | agent/codex_desktop_frame.go:40-41 | the four-byte little-endian length is exact |
| `FrameCodec.HeaderIsLittleEndian` | agent/codex_desktop_frame.go:16-48 | four bytes are the header of exactly the number that they are in base 256, lowest byte first |
| `FrameCodec.ReadExactly` | agent/codex_desktop_frame.go:16-34 | what is read is exactly a valid payload of 1 byte to 256 MiB at the front of the stream, behind its own length |
| `FrameCodec.ErrorExactly` | agent/codex_desktop_frame.go:16-34 | which streams are at their end, cut short, of a forbidden length or of an invalid payload |
| `FrameCodec.Wire.WriteBytes` | agent/codex_desktop_frame.go:74-89 | short writes are repeated; success exactly when the answers each take some bytes and none fails, and then everything is out and exactly the further answers are left |
| `FrameCodec.Wire.WriteFrame` | agent/codex_desktop_frame.go:36-48 | succeeds exactly if the payload is valid and the answers take header and payload; an invalid payload writes nothing, otherwise the whole frame, or a part of it and an error |
| `FrameCodec.Wire.WriteFrames` | agent/codex_desktop_frame.go:16-89 | writes exactly as many frames as are valid and taken, which read back one for one; all of them exactly if all are valid and taken |
| `FrameCodec.AllThroughExactly` | agent/codex_desktop_frame.go:36-89 | when every frame gets through |
| `FrameCodec.AfterExactly` | agent/codex_desktop_frame.go:74-89 | answers suffice exactly if the first few take some bytes each, together all of them, and do not fail |
| `FrameCodec.ShortWritesSuffice` | agent/codex_desktop_frame.go:74-89 | however short the writes, enough of them take every sequence of frames |
| `ProcessAncestry.DescendsFrom` | agent/codex_host_conflict.go:183-200 | the walk ends on every parent map, cycles included, and is true exactly when a named ancestor is reachable by positive, non-self parent links |
| `ProcessAncestry.DescendsByLine` | agent/codex_host_conflict.go:183-200 | descent is reachability: a line of recorded parents leads from the process to a named one |
| `ProcessAncestry.IndexExactly` | agent/codex_host_conflict.go:109-131 | each pid stands for its last row, and its link leads to that row's parent; there are no other links |
| `ProcessAncestry.MembersInOrder` | agent/codex_host_conflict.go:121-131 | the members are the rows of the group in the order of the snapshot |
| `ProcessAncestry.Classify` | agent/codex_host_conflict.go:109-181 | exactly when a group is an official daemon or app-private; then its whole process group is one user's and descends from the trusted root |
| `ProcessAncestry.TreeIsWholeGroup` | agent/codex_host_conflict.go:121-131 | the tree check over the collected members covers every process of the group in the snapshot |
| `HostVerdicts.OfficialExactly` | agent/codex_host_conflict.go:109-157 | a group is an official daemon if and only if it is present and some listed process runs one, with the whole group of its user and below it; the first such, none before it missing from the snapshot |
| `HostVerdicts.PrivateMeans` | agent/codex_host_conflict.go:159-181 | an app-private group has all listed processes in the snapshot, no daemon over it, a Host under a root of the app, and is wholly of its user and at or below that root |
| `HostVerdicts.PrivateIf` | agent/codex_host_conflict.go:159-181 | and a group is recognised so if there is one such root and the whole group is below it |

## Left out

- Foreign effects: process spawning, signals, sockets, file permissions and lock files are steps that succeed or
  fail; the clock is a parameter; logging, error texts and context deadlines are not modelled.
- Reading fields out of JSON: turns, items, requests and activity are given (`view` and `RawTurn`), and the merge
  of `turns` with `turnHistory` (agent/codex_desktop_projection.go:93-144) is taken as done.
- `StateStore.Store` keeps no projection memory and returns no projected events; `ReplicaProjection` states over the
  store's steps what it would publish.
- Action requests, revision wake-ups and event watermarks of the state store are not modelled.
- White space and case folding cover ASCII only; numbers are reals without NaN and infinities; 64-bit revision and
  epoch counters do not wrap around.
- Copying of raw messages and cached snapshots for callers (agent/codex_desktop_state.go:325-341) is not modelled:
  values are immutable here.  `StateStore` patches documents as values; the heap engine is proved beside it.
- The account index is written atomically or not at all; how `codexauth` does that is not part of this model.
- Reconciling an account that was changed outside WeClaw is left out of the account switch; quota contents and
  profile metadata are reduced to steps that succeed or fail.
- A missing owner registry, the retired Desktop control lease and writer leases (other than as a refusal), resume
  flags and subscriptions are left out of the binding model.
- In `DesktopClient` the two tables of waiting calls and waiting discoveries are one table with two kinds of key.
- What a command line says about a process is a parameter of the classification; the default Host pid of an unknown
  target is not modelled.
- Validity of UTF-8 and JSON payloads is a parameter of `FrameCodec`; read errors of the connection other than its
  end are not distinguished.
- The assembly of final answers from text events (`codexFinalAssembler`), Claude session binding, quota and OAuth
  queries, model lists and the mapping of permission options are not modelled.
