# Verified models of commons

A Dafny 4.11 model of the parts of this library in which most can go wrong, with proofs of what they promise.
`dafny verify dfyconfig.toml` checks everything.

* **Thread pool** (`util/executor`, `util/linked-list`). `ExecutorProtocol` is a transition system: every critical section
  is a step, every worker, client and the destroying thread has a program counter, and any interleaving is a run.
  `ExecutorSafety` and `ExecutorInvariant` hold the invariants, `ExecutorTheorems` what follows for every run.
  `ExecutorQueues` puts the critical sections on doubly linked heap lists (`LinkedLists`) and ties each to its step
  (the functions of `ExecutorShared`). `ExecutorCancel` is about executor_cancel, `ExecutorResults` about the
  results that finalizers receive.
* **H.264 and H.265 parameter sets** (`media/sps-parser`). `SpsBits` and `SpsSyntax` describe bits, emulation prevention and
  codes; `SpsH264` and `SpsHevc` describe both what the parser reads and what the standards (ITU-T H.264 and H.265)
  say is written. `SpsReader` and `SpsParser` are the program with its stream state, proved against the
  first; the round trips (`SpsH264Proof`, `SpsHevc`) connect the first to the second. `SpsChroma` is about the one
  element at which they part, `SpsStream` parses an actual stream.
* **Grid view recycler** (`lvgl/widgets/gridview`). `GridWindow` is the scroll arithmetic, `GridBoard` the two pools as values,
  `GridSplice` the renumbering pass, `GridSpliceTheorems` and `GridPositions` what the pass does to views and positions,
  `GridFill` filling, focus and updates, `GridRuns` whole runs, `GridReuse` how many views they create, `GridExamples`
  runs in which a splice goes wrong, `GridCells` the layout cells. `GridPools` and `GridView` are the linked pools and
  the widget's fields, proved against these.
* **Game controller database** (`device/gcdb-updater`). `GcdbLines` says what the output is, `GcdbUpdater` is the buffer that
  is edited in place. `CMemory` holds the C memory functions.
* **Versions** (`util/version-info`): `VersionInfo`, `VersionText`, `VersionConstraints`, and the parse loops in `VersionParser`.
* **Media modules** (`media/ss4s/modules-list`): `Ss4sModules` chooses, `Ss4sIni` reads the list, `Ss4sSections` says what
  the list says.
* **Array list** (`util/array-list`): `ArrayLists`. **Interruptible listener** (`device/evmouse`): `EvMouse`.

Where the code does not keep a promise, the model keeps the code, gives a concrete input or run, and proves the exact
condition under which it does:

* executor.h promises that all tasks are finalized on destroy; a task is left behind exactly if it is pushed after the last
  worker left, which takes a submit that overlaps the destruction (`OverlappingSubmitStrands`, `FinalizedExactly`).
* executor.h promises that the action of a cancelled task is not invoked. That holds exactly for the tasks that
  `executor_cancel` finds before their action (`FoundStopsExactly`); it searches the two queues one after the other and
  misses a task that a worker carries between them (`CancelSlipsThrough`, `MissesExactly`, `MissedStartsExactly`).
* The broadcast in `executor_destroy` is made without the lock. It misses exactly a worker that has read the flag and not yet
  begun to wait, of which there is at most one (`BroadcastMissesWorker`, `MissedExactly`, `WaiterMustSleep`).
* The emulation-prevention test compares the zero count with exactly 2 (`ReaderMeetsStandard`); the signed code is wrong from
  2^31 - 1 on for odd codes, that is, for values from 2^30 on (`SignedExact`, `ReadSeSe`).
* The chroma sample locations are skipped as ten bits, which is right exactly for codes of that length
  (`ChromaLocReadExactly`). This never leads to a wrong size (`H264NeverWrong`), but conforming parameter sets are rejected
  (`ConformingRejected`).
* In the grid view, a splice leaves the right positions and views exactly if no view behind `max_item_end` should move and,
  where the data shrinks, there is no gap (`SpliceExact`) and the pool list is in the right order (`ViewsKept`). Otherwise a
  position can lose its view (`LostView`), views can swap items (`SwappedViews`), or a view stays where it is, past the
  end of the data (`StaleView`, `InRangeExactly`) or on another item (`MisplacedView`). Rows and columns above 255 wrap
  (`NarrowCellExact`), and a deleted view can fail a later update (`DeletionFailsExactly`). Each window position is bound
  again, once, by every update (`RunsSafely`).
* Module selection takes the first video module even if no audio module goes with it (`SucceedsExactly`).

## Model
| member | source | states |
|---|---|---|
| `ExecutorTheorems.HistoriesLegal` | util/executor/executor.c:178-197 | in every reachable state the events of a task are a prefix of one of its two possible histories: finalized with ECANCELED unrun, or started, returned, finalized |
| `ExecutorResults.ResultExactly` | util/executor/executor.c:187-191 | over every run, the finalizer of a task that has run receives the result of the action, except if destroyed was set when the worker went on from the action: then, and only then, it receives ECANCELED instead |
| `ExecutorResults.ResultsArrive` | util/executor/executor.c:187-191 | as long as executor_destroy has not been called, every finalizer of a task that has run receives the result of its action |
| `ExecutorTheorems.AtMostOnce` | util/executor/executor.h:20-22 | in every interleaving an action is started at most once and nothing happens to a task after its finalizer |
| `ExecutorTheorems.FinalizedExactly` | util/executor/executor.h:20-22 | when all workers have left, a task has been finalized if and only if it was not pushed after the last of them left; a task pushed then has no history at all and stays queued, and a client stood between check and push when the flag was set |
| `ExecutorTheorems.AllFinalizedAtExit` | util/executor/executor.c:98-128 | so, when all workers have left, the tasks not finalized are the ones in the pending queue, the active queue is empty, and if no client stood between check and push when the flag was set, every task is finalized |
| `ExecutorTheorems.OverlappingSubmitStrands` | util/executor/executor.c:119-126 | a run in which a submit that overlaps executor_destroy leaves its task in the queue, never finalized |
| `ExecutorTheorems.BroadcastMissesWorker` | util/executor/executor.c:100-107 | a run after which the only worker sleeps behind the broadcast and nothing but a spurious wake-up can happen |
| `ExecutorTheorems.SleepersAfterBroadcast` | util/executor/executor.c:211-222 | after the broadcast no worker falls asleep except one that was between reading the flag and the wait |
| `ExecutorTheorems.WaiterMustSleep` | util/executor/executor.c:213-218 | for such a worker going to sleep is the only step there is, and there is at most one such worker |
| `ExecutorTheorems.SleeperWakes` | util/executor/executor.c:218 | once asleep behind the broadcast it is woken only spuriously or by the signal of a late push |
| `ExecutorTheorems.MissedExactly` | util/executor/executor.c:98-107 | after the broadcast a worker can be asleep in some continuation if and only if it stood between reading the flag and the wait when the broadcast was made |
| `ExecutorTheorems.CancelledWhilePending` | util/executor/executor.c:131-136 | a task whose flag is set while it is pending never starts, and is finalized with ECANCELED if at all, in every continuation |
| `ExecutorCancel.FoundStopsExactly` | util/executor/executor.c:131-136 | when executor_cancel finds the task, in either queue and at any stage, its action is invoked in a continuation if and only if it had been before; if not, the task can only be finalized with ECANCELED |
| `ExecutorCancel.MissesExactly` | util/executor/executor.c:135 | a call that did not find the task active misses it, unfinished, in the pending queue if and only if a worker has taken it and not finalized it by then; when the active queue was searched, the task was queued or between the queues |
| `ExecutorCancel.MissedStartsExactly` | util/executor/executor.c:178-187 | the action of a task that has left the pending queue and not been invoked can still be invoked if and only if its flag is not set and a worker is in front of its first check of destroyed, unset, or between that and the check of the flag |
| `ExecutorCancel.CancelSlipsThrough` | util/executor/executor.c:131-136 | a run in which executor_cancel finds an unstarted task in neither queue, and the action can still be invoked |
| `ExecutorTheorems.AtMostOneMoreAction` | util/executor/executor.c:180-187 | once destroyed is set, each worker starts at most one more action in any continuation |
| `ExecutorTheorems.LateTasksCancelled` | util/executor/executor.c:187-191 | a task whose post-action check comes after destroyed is set is finalized with ECANCELED |
| `ExecutorTheorems.NothingNewAfterDestroy` | util/executor/executor.c:114-136 | once destroyed is set, only an executor_submit that has passed its check adds a task, and only an executor_cancel that has passed its check flags one |
| `ExecutorTheorems.JoinedMeans` | util/executor/executor.c:105-107 | executor_destroy returns only when all workers have left |
| `ExecutorTheorems.FirstInFirstOut` | util/executor/executor.c:211-239 | tasks are taken in the order in which they were pushed; taken and pending together are all pushed tasks |
| `ExecutorTheorems.ActiveQueue` | util/executor/executor.c:186-193 | the active queue holds exactly the tasks of workers between push and remove, without repetition, at most one per thread, none of them pending |
| `ExecutorTheorems.RemoveFinds` | util/executor/executor.c:241-246 | a worker that removes its task from the active queue finds it there |
| `ExecutorTheorems.NoLostWakeup` | util/executor/executor.c:211-239 | while a worker sleeps, every pending task is matched by a worker awake and on its way to the queue or by a push that has still to signal |
| `ExecutorInvariant.InvStep` | util/executor/executor.c:178-253 | every step of every thread keeps the conjunction of the lock, holder, active, history, wake-up and liveness invariants |
| `ExecutorInvariant.InvSteps` | util/executor/executor.c:178-253 | so does every run |
| `ExecutorSafety.FifoStep` | util/executor/executor.c:211-239 | no step reorders, loses or doubles a pending task |
| `ExecutorSafety.HistRun` | util/executor/executor.c:178-197 | each step of thread_worker extends the history of its task legally and touches no other; which result it passes on is `ResultExactly` |
| `ExecutorSafety.HistClear` | util/executor/executor.c:248-253 | queue_clear finalizes each task it finds once, with ECANCELED |
| `ExecutorInvariant.WakeClient` | util/executor/executor.c:234-239 | a push adds one task and one signal owed |
| `ExecutorInvariant.WakeInnerSignal` | util/executor/executor.c:238 | a signal passes its debt to the sleeper it wakes; without a sleeper nothing is owed |
| `ExecutorQueues.Queue.Push` | util/executor/executor.c:234-239 | on the heap list: the task is appended and nothing else changes |
| `ExecutorQueues.Queue.Poll` | util/executor/executor.c:222-231 | the first node is taken off and comes out unlinked; the rest stays a well-formed list |
| `ExecutorQueues.Queue.RemoveTask` | util/executor/executor.c:241-246 | exactly the given node leaves the list |
| `ExecutorQueues.Queue.Clear` | util/executor/executor.c:248-253 | every task is finalized in list order and the queue is empty |
| `ExecutorQueues.Queue.CancelTask` | util/executor/executor.c:273-283 | the flag of the task is set if and only if it is in this queue; no other flag changes |
| `ExecutorQueues.Executor.SubmitPush` | util/executor/executor.c:125-127 | what a submit does to the heap is the step of the transition system |
| `ExecutorQueues.Executor.PollPending` | util/executor/executor.c:222-231 | likewise for a poll; the task is loose afterwards |
| `ExecutorQueues.Executor.Activate` | util/executor/executor.c:186 | likewise for the push to the active queue |
| `ExecutorQueues.Executor.Deactivate` | util/executor/executor.c:192 | likewise for the removal from the active queue |
| `ExecutorQueues.Executor.ClearPendingQueue` | util/executor/executor.c:195 | likewise for clearing; the tasks come out in order |
| `ExecutorQueues.Executor.CancelActive` | util/executor/executor.c:135 | likewise for the first half of executor_cancel |
| `ExecutorQueues.Executor.CancelPending` | util/executor/executor.c:135 | likewise for the second half |
| `ExecutorQueues.Executor.ActiveTasksCount` | util/executor/executor.c:154-162 | the length of the active queue, or 0 once destroyed |
| `LinkedLists.Len` | util/linked-list/linked_list.h:49-55 | the number of nodes |
| `LinkedLists.Top` | util/linked-list/linked_list.h:74-82 | the last node, or null |
| `LinkedLists.FindBy` | util/linked-list/linked_list.h:96-102 | the first node the callback accepts, or null if there is none |
| `LinkedLists.Append` | util/linked-list/linked_list.h:104-118 | links in both directions are well-formed again, with the node at the end |
| `LinkedLists.Remove` | util/linked-list/linked_list.h:122-134 | links in both directions are well-formed again, without the node |
| `LinkedLists.TakeFirst` | util/executor/executor.c:222-230 | the first node is unlinked in both directions, the rest stays well-formed |
| `LinkedLists.SortedInsert` | util/linked-list/linked_list.h:140-174 | the node stands in front of the first one that does not order below it |
| `LinkedLists.SortedInsertKeepsOrder` | util/linked-list/linked_list.h:140-174 | inserting into an ordered list keeps it ordered and adds just the new element |
| `LinkedLists.FreeAll` | util/linked-list/linked_list.h:178-189 | every node is handed to the callback once, in list order |
| `SpsReader.BitStream.ReadBits` | media/sps-parser/sps_parser.c:23-46 | returns the value of the next bits of the payload with emulation-prevention bytes removed and leaves exactly the rest, wherever the reads are split; fails without effect above 32 bits |
| `SpsReader.BitStream.SkipBits` | media/sps-parser/sps_parser.c:48-54 | leaves the payload without its first bits |
| `SpsReader.BitStream.ReadUeg` | media/sps-parser/sps_parser.c:70-94 | computes the Exp-Golomb value and stops behind it |
| `SpsReader.BitStream.ReadEg` | media/sps-parser/sps_parser.c:96-107 | the signed variant |
| `SpsReader.BitStream.ReadScalingList` | media/sps-parser/sps_parser.c:109-120 | stops where the scaling list ends |
| `SpsBits.ReaderMeetsStandard` | media/sps-parser/sps_parser.c:27-37 | the bytes delivered are those of section 7.3.1 of ITU-T H.264 if and only if the data contain no 00 00 00 03 |
| `SpsBits.ReadEscaped` | media/sps-parser/sps_parser.c:27-37 | reading undoes the insertion of emulation-prevention bytes, for every payload |
| `SpsSyntax.ReadUeUe` | media/sps-parser/sps_parser.c:70-94 | reading inverts the ue(v) code of section 9.1 for every code number below 2^32 - 1, in 32-bit arithmetic, and consumes exactly its bits |
| `SpsSyntax.ReadUeLimit` | media/sps-parser/sps_parser.c:86-92 | for 2^32 - 1 it does not |
| `SpsSyntax.SignedExact` | media/sps-parser/sps_parser.c:96-107 | the signed value is that of section 9.1.1 if and only if the code number is even or below 2^31 - 1 |
| `SpsSyntax.ReadSeSe` | media/sps-parser/sps_parser.c:96-107 | of all values of the se(v) code, -(2^31 - 1) to 2^31 - 1, reading gives back exactly those below 2^30 |
| `SpsSyntax.NextScaleExact` | media/sps-parser/sps_parser.c:115 | despite unsigned wrap-around the scale is the one of section 7.3.2.1.1.1 |
| `SpsH264Proof.ScalingListsRead` | media/sps-parser/sps_parser.c:171-179 | written scaling lists are skipped exactly |
| `SpsH264Proof.HrdRead` | media/sps-parser/sps_parser.c:457-487 | written HRD parameters are skipped exactly |
| `SpsH264Proof.VuiRead` | media/sps-parser/sps_parser.c:358-455 | written VUI parameters are skipped exactly, where the chroma sample locations take ten bits |
| `SpsChroma.ChromaLocReadExactly` | media/sps-parser/sps_parser.c:397-400 | whatever follows, the parser stands behind the chroma sample locations if and only if their two codes take ten bits together |
| `SpsChroma.ChromaLocFitsExactly` | media/sps-parser/sps_parser.c:397-400 | of the values the standard allows, that is so if and only if both are 3 to 5 |
| `SpsChroma.ConformingRejected` | media/sps-parser/sps_parser.c:122-262 | a family of conforming parameter sets, with locations (0, 0), that is rejected, whatever else they say and whatever follows, because the misread leads to cpb_cnt_minus1 == 32 |
| `SpsChroma.SampleConforms` | media/sps-parser/sps_parser.c:358-425 | one of them, of 1920 by 1088 samples and 18 bytes, is conforming and its size fits |
| `SpsChroma.SampleRejected` | media/sps-parser/sps_parser.c:457-460 | and it is rejected |
| `SpsH264Proof.ProfilesAgree` | media/sps-parser/sps_parser.c:150-154 | the parser reads the chroma and scaling fields in exactly the profiles for which section 7.3.2.1.1 has them |
| `SpsH264Proof.FrontRead` | media/sps-parser/sps_parser.c:122-234 | everything in front of the VUI is read back, for every parameter set and whatever follows |
| `SpsH264Proof.ChromaRejected` | media/sps-parser/sps_parser.c:155-156 | chroma_format_idc is rejected if and only if it is above 3 |
| `SpsStream.StreamParsed` | media/sps-parser/sps_parser_tests.c:5-11 | the High profile stream of the test file is parsed to 1920 by 1080 |
| `SpsH264Proof.SizeExact` | media/sps-parser/sps_parser.c:242-260 | the wrapped 32-bit computation gives the cropping rectangle of section 7.4.2.1.1 modulo 2^16 |
| `SpsH264Proof.H264RoundTrip` | media/sps-parser/sps_parser.c:122-262 | every conforming parameter set, written by sections 7.3.2.1.1 and E.1 and escaped, is parsed to the size of its cropping rectangle modulo 2^16; to that very size if and only if it fits 16 bits |
| `SpsH264Proof.H264NeverWrong` | media/sps-parser/sps_parser.c:122-262 | whatever the chroma sample locations, a size that is reported is that size |
| `SpsHevc.ProfileTierLevelRead` | media/sps-parser/sps_parser.c:284-318 | profile_tier_level is skipped exactly for every pattern of sub-layer flags |
| `SpsHevc.LumaRejected` | media/sps-parser/sps_parser.c:330-334 | a luma size is rejected if and only if one of its sides is zero |
| `SpsHevc.HevcSizeExact` | media/sps-parser/sps_parser.c:346-354 | the computation gives the conformance window modulo 2^16 |
| `SpsHevc.HevcRoundTrip` | media/sps-parser/sps_parser.c:264-356 | every H.265 parameter set, written by sections 7.3.2.2.1 and 7.3.3, is parsed to the size of its conformance window, exactly if it fits 16 bits |
| `SpsParser.ParseHigh` | media/sps-parser/sps_parser.c:150-180 | computes the specification of the high-profile fields and stops at the same bit |
| `SpsParser.ParsePoc` | media/sps-parser/sps_parser.c:182-204 | likewise for the picture order count fields |
| `SpsParser.ParseFrame` | media/sps-parser/sps_parser.c:206-234 | likewise from num_ref_frames to the cropping window |
| `SpsParser.SkipHrdParameters` | media/sps-parser/sps_parser.c:457-487 | likewise for the HRD parameters |
| `SpsParser.SkipVuiParameters` | media/sps-parser/sps_parser.c:358-455 | likewise for the VUI parameters |
| `SpsParser.ParseProfileInfo` | media/sps-parser/sps_parser.c:489-514 | skips exactly 88 bits of profile information |
| `SpsParser.ParseProfileTierLevel` | media/sps-parser/sps_parser.c:284-318 | likewise for profile_tier_level |
| `SpsParser.SpsParseDimensionH264` | media/sps-parser/sps_parser.c:122-262 | the program with its bit stream computes the specification that the round trip is about |
| `SpsParser.SpsParseDimensionHevc` | media/sps-parser/sps_parser.c:264-356 | likewise for H.265 |
| `GridWindow.RenderRows` | lvgl/widgets/gridview/lv_gridview.c:520-540 | the two loops find the first and the last rendered row |
| `GridWindow.RenderedMeans` | lvgl/widgets/gridview/lv_gridview.c:520-540 | in pixels: a row is found if and only if it overlaps the view at the scroll position, extended by the paddings and a quarter of a row on either side |
| `GridWindow.StepsTouch` | lvgl/widgets/gridview/lv_gridview.c:520-540 | windows at scroll positions at most one reach apart overlap or are adjacent, up or down |
| `GridWindow.BeyondReachSkips` | lvgl/widgets/gridview/lv_gridview.c:520-540 | a step one larger can skip a row, in a concrete grid of any length |
| `GridWindow.SomethingRendered` | lvgl/widgets/gridview/lv_gridview.c:520-540 | inside the content some row is rendered, if the gap between rows is not higher than the view |
| `GridWindow.RenderedWithin` | lvgl/widgets/gridview/lv_gridview.c:541-546 | max_item_end covers the rendered rows if and only if an inequality between the sizes holds |
| `GridWindow.RenderedBeyond` | lvgl/widgets/gridview/lv_gridview.c:541-546 | for realistic sizes it does not |
| `GridSplice.SplicesConserve` | lvgl/widgets/gridview/lv_gridview.c:553-580 | any list of splices, valid or not, keeps every view ever created in exactly one pool, exactly once |
| `GridSplice.ShrinkCounts` | lvgl/widgets/gridview/lv_gridview.c:564-577 | how many views are at each position at every point of a pass that moves views down, duplicates included |
| `GridPositions.SpliceDistinct` | lvgl/widgets/gridview/lv_gridview.c:553-580 | distinct positions are distinct again after a splice, and none lies behind max_item_end if none did |
| `GridPositions.BelowNewCount` | lvgl/widgets/gridview/lv_gridview.c:553-580 | all positions lie in the new data if and only if no view behind max_item_end lies past its end |
| `GridPositions.InRangeExactly` | lvgl/widgets/gridview/lv_gridview.c:553-580 | over any list of fitting splices, the positions lie in the data after each if and only if every position behind max_item_end does until its item is removed |
| `GridExamples.StaleView` | lvgl/widgets/gridview/lv_gridview.c:510-584 | a run from creation: rows of height 100 in a view of height 270, scrolled to 125, five items shown, the first removed; a view is left at position 4 although four items are left |
| `GridExamples.MisplacedView` | lvgl/widgets/gridview/lv_gridview.c:510-584 | likewise with an item put in front, a step that the run theorems allow: the view of the last item stays at position 4, and the item has none |
| `GridExamples.StaleViewStays` | lvgl/widgets/gridview/lv_gridview.c:553-580 | the first of these at all sizes at which a rendered row lies past max_item_end in that way |
| `GridExamples.LastViewStays` | lvgl/widgets/gridview/lv_gridview.c:553-580 | likewise the second |
| `GridPositions.SpliceExact` | lvgl/widgets/gridview/lv_gridview.c:553-580 | the positions in use afterwards are exactly the shifted ones inside the window if and only if no view that should move is behind max_item_end and, where the data shrank, there was no gap behind the removed items |
| `GridPositions.BlockHasNoGaps` | lvgl/widgets/gridview/lv_gridview.c:553-580 | a consecutive block that starts no later than the window or the splice has no gap |
| `GridExamples.FocusLeavesGap` | lvgl/widgets/gridview/lv_gridview.c:223-247 | how a gap comes about: the last item gets the focus although it is not on the screen |
| `GridExamples.GapLosesAPosition` | lvgl/widgets/gridview/lv_gridview.c:553-580 | the splice after that, in a widget of two columns: the focused view loses its position |
| `GridExamples.GapStays` | lvgl/widgets/gridview/lv_gridview.c:596-636 | filling the rows does not give the item a view again |
| `GridExamples.LostView` | lvgl/widgets/gridview/lv_gridview.c:510-584 | the whole run from creation: first row shown, last item focused, first item removed, and the focused item is without its view |
| `GridPositions.SplicesKeep` | lvgl/widgets/gridview/lv_gridview.c:553-580 | any list of fitting splices keeps positions distinct and, under that condition, within the data; none comes to lie behind max_item_end that did not before |
| `GridSpliceTheorems.ViewsKept` | lvgl/widgets/gridview/lv_gridview.c:564-577 | every remaining item in the window keeps its view, and nothing else is in use, if and only if no view that should move is behind max_item_end and, where the data shrank, no view stands in the list in front of the one it pushes down |
| `GridSpliceTheorems.StaysBehind` | lvgl/widgets/gridview/lv_gridview.c:564-577 | a view behind max_item_end stays at its position, whatever becomes of its item, unless that is removed |
| `GridSpliceTheorems.RenumberedMeans` | lvgl/widgets/gridview/lv_gridview.c:553-580 | the pool meant there holds each remaining entry, wherever it is in the data, at its new position with its view if that is in the window, and nothing else |
| `GridSpliceTheorems.OldFirstMeans` | lvgl/widgets/gridview/lv_gridview.c:570-575 | the list condition in terms of indices |
| `GridSpliceTheorems.ShrinkSwapsViews` | lvgl/widgets/gridview/lv_gridview.c:564-577 | removing the first of three items swaps the other two views when the list is in the order fill_rows makes it |
| `GridExamples.FillOrder` | lvgl/widgets/gridview/lv_gridview.c:617-629 | that order: where nothing can be recycled, filling leaves the views in the list with the last position first |
| `GridExamples.SwappedViews` | lvgl/widgets/gridview/lv_gridview.c:510-584 | the whole run from creation: three items shown, the first removed, and the other two have swapped their views |
| `GridFill.RecycleExcessMeans` | lvgl/widgets/gridview/lv_gridview.c:600-616 | the must-exist assertion holds if and only if every excess position is in use; then exactly those are recycled |
| `GridFill.RefillMeans` | lvgl/widgets/gridview/lv_gridview.c:596-631 | in use afterwards are the window and what was in use outside the excess; each window position is bound once, in row-major order, to the view that ends up there |
| `GridFill.FocusMeans` | lvgl/widgets/gridview/lv_gridview.c:223-247 | focusing brings at most its own item into use, keeps positions distinct, and leaves nothing else focused |
| `GridRuns.ScrollKeeps` | lvgl/widgets/gridview/lv_gridview.c:510-540 | a scroll step within reach never fails the assertion and keeps the invariant |
| `GridRuns.NewSizesKeep` | lvgl/widgets/gridview/lv_gridview.c:381-386 | nor does a change of sizes that leaves old and new rows together |
| `GridRuns.DataKeeps` | lvgl/widgets/gridview/lv_gridview.c:183-216 | nor does a list of splices at an unchanged scroll position, views behind max_item_end included as long as the end of the data does not pass them |
| `GridRuns.RunsSafely` | lvgl/widgets/gridview/lv_gridview.c:510-636 | over every run of scrolling, new sizes, splices, focus changes and deleted views no assertion fails, each step does what it is to do (sizes, item and row counts, a pending focus), no view is lost or at two positions, and in every update each window position gets its own view and is bound to it once, in order, and nothing else but a pending focus outside the window is bound |
| `GridRuns.FreshRunsSafely` | lvgl/widgets/gridview/lv_gridview.c:510-636 | so it is for every run from a widget that has never been updated |
| `GridRuns.DeletionFailsExactly` | lvgl/widgets/gridview/lv_gridview.c:759-763 | after the view of a position has been deleted, the next scroll step within reach fails the must-exist assertion if and only if it recycles that position; otherwise the position has a view again |
| `GridRuns.ScrollingStaysExact` | lvgl/widgets/gridview/lv_gridview.c:510-636 | over every run of scrolling the pool in use is exactly the window, and each update binds each of its positions once, in order |
| `GridRuns.FreshScrollsExactly` | lvgl/widgets/gridview/lv_gridview.c:510-636 | so it is for every run of scrolling from a widget that has never been updated |
| `GridRuns.UpdateFailsExactly` | lvgl/widgets/gridview/lv_gridview.c:547-584 | an update with changes fails an assertion if and only if a change starts below zero, the changes do not lead to the item count, or a position to be recycled has no view |
| `GridRuns.AssertionExactly` | lvgl/widgets/gridview/lv_gridview.c:600-616 | with the window in use, the assertion fails if and only if the new rows neither overlap nor touch the old ones |
| `GridReuse.ShowThrifty` | lvgl/widgets/gridview/lv_gridview.c:651-672 | grid_obtain_item creates a view only if none is free to be used again |
| `GridReuse.ViewsReused` | lvgl/widgets/gridview/lv_gridview.c:510-672 | over every run the views that exist never become more than there were at its start or than positions were in use at once, and without deletions exactly as many |
| `GridReuse.FreshViewsReused` | lvgl/widgets/gridview/lv_gridview.c:510-672 | so, from a widget that has never been updated, as many views are created as positions are in use at once at some time; when views are deleted, no more than that exist |
| `GridReuse.ScrollingCreates` | lvgl/widgets/gridview/lv_gridview.c:510-672 | by scrolling alone exactly as many views are created as the largest window has positions |
| `GridCells.CellMeans` | lvgl/widgets/gridview/lv_gridview.c:617-629 | cells are counted row by row |
| `GridCells.SplicesLaidOut` | lvgl/widgets/gridview/lv_gridview.c:574-576 | splices leave every view in the grid cell of its position while rows and columns fit 8 bits |
| `GridCells.MoveMislaid` | lvgl/widgets/gridview/lv_gridview.c:574-576 | a view moved to a cell beyond 8 bits is laid out in a wrong cell |
| `GridCells.NarrowCellExact` | lvgl/widgets/gridview/lv_gridview.c:574 | the narrowed cell is right if and only if row and column fit 8 bits |
| `GridCells.FillLaidOut` | lvgl/widgets/gridview/lv_gridview.c:617-629 | fill_rows and a pending focus lay out every view in the cell of its position |
| `GridPools.ViewPool.TakeByPosition` | lvgl/widgets/gridview/lv_gridview.c:674-681 | the first entry at the position leaves the linked list, and its view is returned |
| `GridPools.ViewPool.RemoveByInstance` | lvgl/widgets/gridview/lv_gridview.c:683-689 | the first entry of the view leaves the list |
| `GridPools.ViewPool.NodeByPosition` | lvgl/widgets/gridview/lv_gridview.c:691-698 | the first node at the position |
| `GridPools.ViewPool.NodeByInstance` | lvgl/widgets/gridview/lv_gridview.c:700-707 | the first node of the view |
| `GridPools.ViewPool.Unlink` | lvgl/widgets/gridview/lv_gridview.c:709-722 | exactly the node leaves, and the links stay well-formed |
| `GridPools.ViewPool.Poll` | lvgl/widgets/gridview/lv_gridview.c:724-734 | the first entry is taken |
| `GridPools.ViewPool.Put` | lvgl/widgets/gridview/lv_gridview.c:736-747 | the entry becomes the first |
| `GridPools.ViewPool.SetPosition` | lvgl/widgets/gridview/lv_gridview.c:575 | the first entry at a position is renumbered in place |
| `GridPools.ViewPool.Reset` | lvgl/widgets/gridview/lv_gridview.c:749-757 | the pool is empty |
| `GridBoard.DeletedEverywhere` | lvgl/widgets/gridview/lv_gridview.c:759-763 | after a view is deleted no pool mentions it, and every other view is where it was |
| `GridView.LvGrid.RecycleItem` | lvgl/widgets/gridview/lv_gridview.c:638-649 | the grid with its linked pools does what the specification says |
| `GridView.LvGrid.ObtainItem` | lvgl/widgets/gridview/lv_gridview.c:651-672 | likewise; the view returned is the one at the position |
| `GridView.LvGrid.MoveItem` | lvgl/widgets/gridview/lv_gridview.c:565-576 | likewise for one round of the move loop |
| `GridView.LvGrid.ApplyChanges` | lvgl/widgets/gridview/lv_gridview.c:553-581 | likewise for the change loop with its assertions |
| `GridView.LvGrid.RecycleRows` | lvgl/widgets/gridview/lv_gridview.c:603-616 | the nested loops recycle the positions of the rows one after the other, and stop where one is missing |
| `GridView.LvGrid.ShowRows` | lvgl/widgets/gridview/lv_gridview.c:618-629 | the nested loops show the positions of the rows one after the other |
| `GridView.LvGrid.FillRows` | lvgl/widgets/gridview/lv_gridview.c:596-636 | likewise for fill_rows |
| `GridView.LvGrid.FocusItem` | lvgl/widgets/gridview/lv_gridview.c:223-247 | likewise for lv_gridview_focus |
| `GridView.LvGrid.UpdateGrid` | lvgl/widgets/gridview/lv_gridview.c:510-584 | likewise for update_grid; it fails exactly where an assertion does |
| `GridView.LvGrid.SetDataAdvanced` | lvgl/widgets/gridview/lv_gridview.c:183-216 | likewise for new data with a list of changes |
| `GridView.LvGrid.SizeChanged` | lvgl/widgets/gridview/lv_gridview.c:381-386 | likewise for a new size or style: nothing happens unless update_sizes finds a change |
| `GridView.LvGrid.DeleteItem` | lvgl/widgets/gridview/lv_gridview.c:759-763 | likewise for the deletion of a view |
| `GridView.LvGrid.GetItemView` | lvgl/widgets/gridview/lv_gridview.c:292-297 | the view at a position, if there is one |
| `GcdbLines.ChunksDoNotMatter` | device/gcdb-updater/gamecontrollerdb_updater.c:92-106 | however a body is cut into chunks, the output is that of its complete lines and the buffer keeps what follows the last newline |
| `GcdbLines.LinesSplit` | device/gcdb-updater/gamecontrollerdb_updater.c:266-288 | lines and remainder join to the text again, and contain no newline |
| `GcdbLines.LinesOfJoined` | device/gcdb-updater/gamecontrollerdb_updater.c:266-288 | and there is no other way to cut it |
| `GcdbLines.RewrittenMeans` | device/gcdb-updater/gamecontrollerdb_updater.c:270-280 | of a line without NUL characters the first occurrence of the field is taken out and the field for this platform is appended; such a line without the field is dropped |
| `GcdbUpdater.StrStr` | device/gcdb-updater/gamecontrollerdb_updater.c:270 | finds the first occurrence, or none |
| `GcdbUpdater.TaskContext.constructor` | device/gcdb-updater/gamecontrollerdb_updater.c:42-47 | the field searched for is platform:X, for the alternative platform if there is one, with its exact length |
| `GcdbUpdater.TaskContext.WriteLine` | device/gcdb-updater/gamecontrollerdb_updater.c:269-280 | the edit in place writes the rewritten line and leaves the text behind it alone |
| `GcdbUpdater.TaskContext.WriteMappingLines` | device/gcdb-updater/gamecontrollerdb_updater.c:260-289 | all complete lines are rewritten, and the remainder is moved to the front of the buffer; nothing happens while no file is open |
| `GcdbUpdater.TaskContext.BodyCb` | device/gcdb-updater/gamecontrollerdb_updater.c:92-106 | one chunk, with the cases of an error status and of no open file |
| `GcdbUpdater.TaskContext.Body` | device/gcdb-updater/gamecontrollerdb_updater.c:92-106 | a whole body in any chunks: the file gets its rewritten complete lines |
| `CMemory.MemMove` | device/gcdb-updater/gamecontrollerdb_updater.c:274 | overlapping ranges are moved correctly in either direction |
| `VersionInfo.CompareMeans` | util/version-info/version_info.c:61-80 | comparison is dictionary order on the segments that both versions have |
| `VersionInfo.NoOverflow` | util/version-info/version_info.c:65-78 | the differences fit an int |
| `VersionInfo.PassesMeans` | util/version-info/version_info.c:141-158 | for each operand, which versions pass, in terms of the segments of both: in dictionary order behind or in front of the given version, neither, or one a prefix of the other |
| `VersionInfo.GreaterThanFive` | util/version-info/version_info_test.c:59-65 | the checks of >5 against 6.0.0, 4.9.9 and 5.0.1 |
| `VersionInfo.OneSided` | util/version-info/version_info.c:141-158 | with > and >= every greater full version passes too, with < and <= every lesser one |
| `VersionInfo.CompareMonotone` | util/version-info/version_info.c:61-80 | comparison of full versions with any version is monotone |
| `VersionInfo.PassingIsInterval` | util/version-info/version_info.c:191-198 | the full versions that pass constraints without <> form an interval |
| `VersionInfo.WithoutThatNoInterval` | util/version-info/version_info.c:149-150 | with <>, or among partial versions, they do not |
| `VersionInfo.CheckConstraints` | util/version-info/version_info.c:191-198 | true if and only if all constraints pass, in the sense of `PassesMeans` |
| `VersionText.ParseUndoesStr` | util/version-info/version_info.c:9-59 | parsing a printed version gives it back, and the buffer of 64 characters suffices |
| `VersionText.MoreIgnored` | util/version-info/version_info.c:9-33 | what follows a full version is ignored |
| `VersionText.NotAVersion` | util/version-info/version_info.c:9-33 | a text that does not begin like a number is rejected |
| `VersionText.StrtolReads` | util/version-info/version_info.c:17 | the number read has its sign, and is held within the range of a long |
| `VersionConstraints.ParseUndoesConstraintStr` | util/version-info/version_info.c:82-139 | parsing a written constraint gives it back |
| `VersionConstraints.ParsesExactly` | util/version-info/version_info.c:82-139 | behind any spaces, operand characters and a version are read as the constraint of that operand, as the one for equality if there are no such characters, and not at all if they are no operand |
| `VersionConstraints.ParseUndoesCommaJoined` | util/version-info/version_info.c:160-189 | so does parsing a list joined with commas |
| `VersionConstraints.TokensFit` | util/version-info/version_info.c:164-171 | there is at most one token more than there are commas |
| `VersionParser.VersionInfoParse` | util/version-info/version_info.c:9-33 | the loop computes the specification; failure leaves all segments at -1 |
| `VersionParser.VersionConstraintParse` | util/version-info/version_info.c:82-139 | likewise, with the operand scan |
| `VersionParser.VersionConstraintsParse` | util/version-info/version_info.c:160-189 | likewise, and the array of elements is never overrun |
| `Ss4sModules.ModulesSelect` | media/ss4s/modules-list/ss4s_modules.c:59-121 | the loops make the choice described declaratively: preferred modules if they will do, else the first that will |
| `Ss4sModules.VideoOkMeans` | media/ss4s/modules-list/ss4s_modules.c:78-94 | a module is asked to do video, and audio along with it if it can and none is preferred; it is eligible if it can do video and the check says so |
| `Ss4sModules.OneModuleExactly` | media/ss4s/modules-list/ss4s_modules.c:59-121 | one module is chosen for both if and only if it is the preferred audio module, or there is no eligible preferred one and it either does both at once, however heavy the audio modules in front of it are, or is the first for audio alone |
| `Ss4sModules.BothInOne` | media/ss4s/modules-list/ss4s_modules.c:78-94 | a module that does both is chosen for both beside a heavier one that only does audio |
| `Ss4sModules.ChoiceUnique` | media/ss4s/modules-list/ss4s_modules.c:59-121 | the description determines the choice |
| `Ss4sModules.SelectionSound` | media/ss4s/modules-list/ss4s_modules.c:59-121 | with checks, both modules have the capability and passed the check for it, and are one module or do not conflict |
| `Ss4sModules.UncheckedMayConflict` | media/ss4s/modules-list/ss4s_modules.c:99-114 | without checks they may conflict |
| `Ss4sModules.SelectionHeaviest` | media/ss4s/modules-list/ss4s_modules.c:78-94 | from the sorted list no eligible video module is heavier than the chosen one unless one was preferred, and likewise for a separate audio module |
| `Ss4sModules.SucceedsExactly` | media/ss4s/modules-list/ss4s_modules.c:105-120 | whatever the preferences, a video module is chosen if and only if some module is eligible, and selection succeeds if and only if the chosen one does audio too or leaves an eligible audio module |
| `Ss4sModules.GreedyMissesAPair` | media/ss4s/modules-list/ss4s_modules.c:78-116 | it can fail although two modules would go together |
| `Ss4sModules.ModuleInfoConflicts` | media/ss4s/modules-list/ss4s_modules.c:123-137 | true if and only if either lists the other or its group |
| `Ss4sModules.ConflictingMeans` | media/ss4s/modules-list/ss4s_modules.c:123-137 | a conflict is an id or a group of the one among the conflicts of the other |
| `Ss4sModules.ModuleById` | media/ss4s/modules-list/ss4s_modules.c:237-245 | the first module with that id or group |
| `Ss4sModules.FirstNamedMeans` | media/ss4s/modules-list/ss4s_modules.c:237-245 | found by id or by group |
| `Ss4sModules.StrCmpMeans` | media/ss4s/modules-list/ss4s_modules.c:228-235 | equal weights are ordered by the first character in which the groups differ |
| `Ss4sModules.WeightCompareOrder` | media/ss4s/modules-list/ss4s_modules.c:228-235 | the comparison is a total preorder: antisymmetric in sign and transitive |
| `Ss4sIni.ParseContext.SectionChanged` | media/ss4s/modules-list/ss4s_modules.c:195-206 | the module read is added if this system's version passes, and the draft is blank |
| `Ss4sIni.ParseContext.Handle` | media/ss4s/modules-list/ss4s_modules.c:163-193 | a line of another section closes the current one, then sets its property, as `SectionMeans` says of all lines together |
| `Ss4sIni.ParseContext.Read` | media/ss4s/modules-list/ss4s_modules.c:38-50 | the modules are those of the runs of lines of one section whose os_version passes, in order |
| `Ss4sSections.SectionMeans` | media/ss4s/modules-list/ss4s_modules.c:163-193 | each property of the module of a section is what the last line about it says (audio and video whether that is true, the weight held between 0 and 100, conflicts and os_version as parsed); reading fails if and only if an os_version line comes behind one that could be read |
| `Ss4sSections.SectionRead` | media/ss4s/modules-list/ss4s_modules.c:38-50 | reading a file gives the module its first section describes, unless its os_version shuts this system out, and then the modules of the rest |
| `Ss4sSections.WeightMeans` | media/ss4s/modules-list/ss4s_modules.c:176-182 | a number above 100 counts as 100, a negative one as 0 |
| `Ss4sSections.ReadUndoesWritten` | media/ss4s/modules-list/ss4s_modules.c:163-206 | a written list of modules is read back |
| `ArrayLists.ArrayList.Add` | util/array-list/array_list.c:43-55 | room is made at the place asked for, everything else keeps its order; beyond the end nothing happens |
| `ArrayLists.ArrayList.Insert` | util/array-list/array_list.c:43-55 | as a sequence: the element is inserted there |
| `ArrayLists.ArrayList.Remove` | util/array-list/array_list.c:57-64 | as a sequence: the element is removed; outside the list nothing happens |
| `ArrayLists.ArrayList.Get` | util/array-list/array_list.c:38-41 | the element, if the index is in range |
| `ArrayLists.ArrayList.EnsureCapacity` | util/array-list/array_list.c:82-92 | the doubled capacity suffices and the contents stay |
| `ArrayLists.GrownFits` | util/array-list/array_list.c:82-92 | up to 2^30 elements the capacity stays within an int, whatever it was |
| `ArrayLists.GrownOverflows` | util/array-list/array_list.c:82-92 | for one more it need not |
| `ArrayLists.AppendAll` | util/array-list/array_list.c:43-55 | n appends give the elements in order and move at most 2n of them when growing |
| `EvMouse.IdleInterruptStopsNextListen` | device/evmouse/evmouse.c:93-100 | an interrupt while no call is running makes exactly the next call return without looping |
| `EvMouse.InterruptStopsLoop` | device/evmouse/evmouse.c:169-189 | after an interrupt during a call every later test of the guard fails until the call returns |
| `EvMouse.InterruptedCallReturns` | device/evmouse/evmouse.c:103-149 | an interrupted call takes at most three more steps of its own |
| `EvMouse.OnlyInterruptsStop` | device/evmouse/evmouse.c:103 | without an interrupt the loop goes on |
| `EvMouse.InterruptConsumed` | device/evmouse/evmouse.c:146-149 | one interrupt stops one call |

## Left out
- Termination of `executor_destroy` is not claimed; the run that never ends is given instead.
- Task identity: `task_comparator` truncates a pointer difference to int (util/executor/executor.c:290-292); tasks are numbered and compared by number.
- A missing finalizer, thread creation, failing locks, and freed memory in the executor; a finalizer is an event of the log.
- Calls of executor_cancel from inside a callback run as steps of a client thread; the finalizers called by queue_clear are one step.
- `nth`, `index` and `new` of the linked list, and its singly linked variant.
- SpsReader.BitStream.ReadBits: requires the bits to be there; the C code would read past the data, whose length it does not know.
- SpsParser.SpsParseDimensionH264: requires that the parse is defined, that is, stays inside the data, shifts by less than 32 and uses no variable a failed read left unset; also data below 2^29 bytes.
- SpsParser.SpsParseDimensionHevc: likewise; a conformance window with chroma_format_idc above 4 would index past a table.
- SpsH264Proof.H264RoundTrip: for parameter sets with chroma sample locations, requires these to take ten bits, because the code skips ten; `H264NeverWrong` covers the others, some of which are rejected (`ConformingRejected`).
- The NAL unit header of H.265: the code starts behind it, though media/sps-parser/sps_parser_tests.c passes a pointer to it.
- lv_gridview_set_data without changes, and column changes: `clear_rows` stops one row early (lvgl/widgets/gridview/lv_gridview.c:587).
- GridRuns.RunsSafely: the number of columns and the height of a row stay the same over a run; steps leave old and new rows together (scroll steps by staying within reach) and show some row; a splice does not move the end of the data past a view behind max_item_end, which `InRangeExactly` shows to be needed; a step recycles no position whose view was deleted, likewise `DeletionFailsExactly`.
- GridView.LvGrid.UpdateGrid: the scroll position, the adapter's item count and the created views are parameters; events, styles, keys, hidden flags and the width of lv_coord_t are not modelled, and paddings are not negative.
- Ranges of change records whose counts are negative get no claim.
- Network, file, lock and header handling of the updater; its output is a string, and allocation succeeds.
- strtol, strtok_r, strpbrk and strchr are functions on strings; long has 64 bits.
- VersionConstraints.ParseUndoesCommaJoined: constraints are written by a function of the model, as the library has no printer for them.
- qsort is taken as: the list is sorted by the comparison; SS4S_ModuleCheck is a function of id and flags. The name of a module is not kept.
- Ss4sIni.ParseContext.Read: lines come with a section name; opening and lexing the ini file is not modelled.
- ArrayLists.ArrayList.Add: requires that the grown capacity fits an int, which `GrownFits` shows up to 2^30 elements; item sizes in bytes and failing allocation are left out.
- Several listener threads on one evmouse, its devices and events.
- Directories not named above: they have no unbounded behaviour, or rest on the operating system.
