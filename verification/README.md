# Verified models of the fleet's map, perception and validation code

This project models the algorithms and protocols that carry the system's hard guarantees, and proves
those guarantees for every input, every run and every interleaving:

- **Segmentation.** DBSCAN and region growing over a neighbour relation (`NeighbourGraph`, `Dbscan` for the scan,
  `DbscanLabels` for what its labels mean, `RegionGrow`).
- **Map delivery.** The translator buffers obstacle updates, collapses them, cuts them into chunks, sends
  them to every AGV and puts failed batches back. `RunningMap` gives the meaning of an update list,
  `Delivery` the chunked delivery, `Translator` the protocol as a state machine over two threads with its
  invariants, `TranslatorGate` what opens the gate and makes a flush due, `TranslatorRuns` what whole runs do with
  failures, with the readiness signal and with deleted obstacles, `TranslatorTopic` the order in which updates leave
  in topic mode, and `TranslatorNode` the node's own fields, one method per atomic section, each refining one step.
- **Replay.** Three sorted streams against a scaled clock (`ReplayManager`), and the start of the replay against the
  callbacks that still fill the streams: `ReplayRace` the state machine, `ReplayNode` the node's part, one method a
  step.
- **Latency recorder.** A single-producer, single-consumer ring with wrapping 64-bit indices: `Bits` for the
  masks and the power-of-two round-up, `LatencyRing` for the state machine and its invariant, `LatencyRuns` for
  what every run gives, `LatencyRecorder` for the class over a real array, each method refining one step.
- **Validation ledger.** Spawns, detections and circle entries in any order, against running statistics
  (`ValidationLedger` for the arithmetic, `ValidationTrace` for what spawns and counters say of the whole history,
  `ValidationNode` for the class).
- **Geometry and statistics over the reals.** Least-squares velocity (`Regression`, `HeatmapPredictor`), the
  statistical outlier filter (`OutlierFilter`), the box rebuilt around a transformed rectangle
  (`CoordinateTransform`).
- **Naming and chunking.** Size-bounded chunks (`RectChunks`) stored under numbered names, read back and stored anew
  (`ChunkStore`, `Decimal`), and the id ranges of the fleet report (`Fleet`).

Code that changes things step by step is imperative here too: classes with the original's fields, loops with
invariants, an array for the ring. Each such method is proved against a specification, and what that
specification means is proved in lemmas beside it. Ghost fields of the classes record history and are read
by no guard.

`dafny verify dfyconfig.toml` checks everything.

## Where the code and its documentation part ways

The models follow the code. For each of these an exact condition is proved, in terms a caller can check, and a
concrete input or run.

- DBSCAN: a point next to a core point can stay noise, because only the seed of a cluster enqueues points
  already visited. The textbook rule holds on a graph exactly when every non-core point next to a core point has
  one whose cluster's least core point comes earlier or is itself a neighbour (`DbscanLabels.TextbookNoiseIff`,
  `DbscanLabels.NoiseBesideCore`).
- "Semantically identical to extract_map_data.py": the collapse drops DELETEs, so it agrees with full replay
  on a receiving map exactly when no key of that map ends the batch deleted (`RunningMap.CollapseExactOn`). Over
  whole runs an AGV that started empty is exact after a flush if and only if it holds no obstacle last deleted
  (`TranslatorRuns.AgvExactIff`). By the updates alone: unless a failed attempt intervened, exactly when no obstacle of
  an earlier batch has been deleted since (`TranslatorRuns.AgvExactByHistory`). One can stay
  (`TranslatorRuns.DeletedStays`).
- "Will retry on next timer tick": that holds exactly in buffering mode; otherwise there is no timer, and a failed
  flush waits for the next update (`TranslatorRuns.RetriedIffBuffering`, `TranslatorRuns.FailureIsReached`).
- `initialization_ready` "once all map data has been flushed": the timer looks at the flushing flag and at the
  buffer separately. The signal is right, whatever the flush thread does meanwhile, exactly when no non-empty
  batch is in flight at the second look (`TranslatorRuns.InitReadyRightIff`); it can be wrong
  (`TranslatorRuns.InitReadyTooEarly`).
- Delivery order: in topic mode without buffering, updates held back for the gate can be overtaken by one published
  directly. That happens exactly while a batch is unpublished or the buffer holds something its own later updates do
  not cancel (`TranslatorTopic.OvertakesIff`), so only between the opening of the gate and the first delivery
  (`TranslatorTopic.OvertakingEnds`); receivers can then end with the older geometry (`TranslatorTopic.OvertakenRun`).
- The round-up to a power of two stops at five shifts. It is right for every request up to 2^32; beyond, exactly
  for powers of two and requests without 32 zero bits in a row under the leading one (`Bits.RoundUp`,
  `Bits.WideGapExample`).
- "All observations are at the same time": a denominator below 1e-9 also discards genuine motion
  (`HeatmapPredictor.UniformMotionRecovered`, `HeatmapPredictor.FastSightings`).
- "Count every instance of a confirmed-persistent id": the pruning forgets sightings of ids below the threshold. The
  total is right exactly when no id that has ever been seen often enough has had one forgotten
  (`ValidationLedger.TotalRightIff`); an id can be pruned and come back (`ValidationTrace.PrunedReturns`).
- "Pure Y-negation preserves axis-alignment": it keeps the orientation field. That is right exactly for rectangles
  along the axes and squares on their corner (`CoordinateTransform.MirrorExactly`,
  `CoordinateTransform.MirrorTilted`).
- A rectangle of zero width or height, or with vertices, is not rebuilt: under a matrix it keeps width, height and
  angle. It covers its image exactly when the mapped half sides stay within the half sides
  (`CoordinateTransform.KeptSidesCoverIff`); a wall turned by a right angle is not covered
  (`CoordinateTransform.WallTurned`).
- The aggregator's header promises a range of ids "reserved exclusively" for `<prefix>_<digits>`. The code takes any
  trailing digits and ignores what precedes them, so "agv_1", "lift_1" and "agv_01" share one range
  (`Fleet.RangeNotExclusive`). Two namespaces share a range exactly when their range keys agree
  (`Fleet.SameRangeIff`).
- The ranges are to keep the ids of the fleet report unique. For any ids at all, a list of it repeats none exactly when
  no vehicle repeats one of its own there and no two vehicles clash (`Fleet.NoIdShared`, `Fleet.ClashIff`): with ids
  below 1 000 000, when vehicles of one key have none in common (`Fleet.SeparateByKey`). Obstacles sent without
  tracking all have the id 2^64-1, which wraps around to the last id of the range below (`Fleet.UntrackedClash`), so
  two vehicles with one obstacle each and ranges of their own can clash (`Fleet.NeighbourClash`). The builder numbers
  matched obstacles from 0, so one vehicle's whole report is free of repetitions only if all unmatched ids lie past
  those (`Fleet.BuilderIdsDistinctIff`).
- "Uses exact JSON sizing": the count allows one character per comma where the serialiser writes two. A chunk as
  written is within the limit exactly when the count leaves room for the rest (`RectChunks.TextWithinIff`); it can
  be over (`RectChunks.TextOverLimit`), but stays under two kilobytes (`RectChunks.TextBelowTwoKilobytes`).
- Pushing chunks never deletes attributes: chunks of an earlier, longer push are read back behind the new ones
  (`ChunkStore.PushThenRead`, `ChunkStore.LeftoverExample`). The sync at start re-chunks what it read and pushes over
  it; of non-empty chunks within the size rule it doubles rectangles exactly when it needs fewer chunks than were
  stored (`ChunkStore.SyncExactIff`, `ChunkStore.SyncDoubles`).
- Name order is index order only up to 100 chunks (`ChunkStore.NamesSortedIffHundred`). Beyond, nothing is lost
  (`ChunkStore.NothingLostByName`), but a list of distinct rectangles never comes back in order
  (`ChunkStore.ReadsBackIffHundred`, `ChunkStore.HundredAndOneChunks`).
- A callback that saw the first flush still pending may buffer its message after the replay's sort. In every run that
  happens to at most one message, before the first tick (`ReplayRace.OneLateMessage`). A tick is exact exactly when
  that message is not yet due or everything sorted before it is (`ReplayRace.RunExactIff`), so the whole replay of its
  stream exactly when no sorted message is later (`ReplayRace.ReplayRightIff`); a run shows a tick that is not
  (`ReplayRace.LateRun`). If there was nothing to sort, the message is never published (`ReplayRace.StuckForever`,
  `ReplayRace.StuckRun`).
- The trim of old observations stops at the first fresh one. It keeps exactly the window unless an old observation
  stands behind a fresh one (`HeatmapPredictor.TrimKeepsWindow`, `HeatmapPredictor.TrimStops`).

## Model

| member | source | states |
|---|---|---|
| Dbscan.Dbscan | src/laserscan_preprocessor/src/segmentation/segmentation_strategy.cpp:24-86 | for any symmetric neighbour relation the scan terminates with a labelling that meets the declarative specification `IsDbscan`: no point unvisited, every core point chained to the seed of its cluster, border points with the first cluster that may claim them, noise claimed by none |
| Dbscan.ExpandCluster | src/laserscan_preprocessor/src/segmentation/segmentation_strategy.cpp:57-79 | the work list empties; every point next to a core point of the new cluster is then labelled, and no cluster label already given changes, while noise may become border |
| DbscanLabels.SameLabelIffLinked | src/laserscan_preprocessor/src/segmentation/segmentation_strategy.cpp:24-86 | two core points share a label iff a chain of neighbouring core points joins them |
| DbscanLabels.SeedsAreLeastCores | src/laserscan_preprocessor/src/segmentation/segmentation_strategy.cpp:36-81 | cluster ids are exactly 0..k-1, in the order of the least core point of each cluster |
| DbscanLabels.EnoughNeighbours | src/laserscan_preprocessor/src/segmentation/segmentation_strategy.cpp:43-46 | in plain counts: min_points neighbours put a point in a cluster, every cluster was started by such a point, and a point with fewer and none of them beside it is noise |
| DbscanLabels.NoiseExactly | src/laserscan_preprocessor/src/segmentation/segmentation_strategy.cpp:43-78 | noise iff not core and every cluster next to the point was seeded later, at a point it does not neighbour |
| DbscanLabels.BorderExactly | src/laserscan_preprocessor/src/segmentation/segmentation_strategy.cpp:43-78 | a labelled non-core point neighbours a core point of its own cluster, and each earlier cluster beside it was seeded later at a non-neighbour |
| DbscanLabels.LabellingUnique | src/laserscan_preprocessor/src/segmentation/segmentation_strategy.cpp:24-86 | the specification determines every label and every seed |
| DbscanLabels.TextbookNoiseIff | src/laserscan_preprocessor/src/segmentation/segmentation_strategy.cpp:43-78 | on a graph the labels give the textbook noise iff every non-core point next to a core point has one linked to a least core point that comes earlier or is a neighbour |
| DbscanLabels.NoiseBesideCore | src/laserscan_preprocessor/src/segmentation/segmentation_strategy.cpp:73 | four points on which the textbook noise rule fails |
| RegionGrow.Grow | src/laserscan_preprocessor/src/segmentation/segmentation_strategy.cpp:90-140 | region growing meets `IsRegions`: components of at least the minimum size are numbered by first index, the rest get -1 |
| RegionGrow.ExploreRegion | src/laserscan_preprocessor/src/segmentation/segmentation_strategy.cpp:106-126 | the work list visits exactly the connected component of its seed, each point once |
| RegionGrow.SameRegionIffConnected | src/laserscan_preprocessor/src/segmentation/segmentation_strategy.cpp:90-140 | same region iff connected, for every point that has a region |
| RegionGrow.NeighboursAgree | src/laserscan_preprocessor/src/segmentation/segmentation_strategy.cpp:106-126 | neighbours always have the same label |
| RegionGrow.NoRegionIffSmall | src/laserscan_preprocessor/src/segmentation/segmentation_strategy.cpp:128-134 | -1 iff the component is below min_segment_size |
| RegionGrow.RegionOrder | src/laserscan_preprocessor/src/segmentation/segmentation_strategy.cpp:103-134 | region ids are in the order of the components' smallest indices |
| RegionGrow.RegionsUnique | src/laserscan_preprocessor/src/segmentation/segmentation_strategy.cpp:90-140 | graph and minimum size determine every label |
| RunningMap.MapDataExtractor.ProcessObstacles | scripts/extract_map_data.py:284-314 | the reference map is the replay of all well-formed entries over the old map, and the counters count inserts and deletes, also of unknown ids |
| RunningMap.MapDataExtractor.ProcessPallet | scripts/extract_map_data.py:289-314 | one entry: a missing id or malformed box changes nothing, a missing operation means INSERT, a DELETE is counted even for an unknown id |
| RunningMap.MapDataExtractor.SaveObstacles | scripts/extract_map_data.py:327-360 | nothing is saved for an empty map; otherwise reading the saved list back rebuilds the map, one entry an obstacle |
| RunningMap.LastDecides | scripts/extract_map_data.py:284-314 | only the last operation on an id decides whether and how the map holds it |
| RunningMap.EntriesDecide | scripts/extract_map_data.py:289-314 | after a list of entries an obstacle has a given box iff the last entry that acts on it inserts it with that box, or none does and it had the box before |
| RunningMap.EntriesCounted | scripts/extract_map_data.py:289-314 | the counters count entries: every DELETE with an id, known or not, and every well-formed INSERT |
| RunningMap.Collapse | src/message_translator/src/message_translator_node.cpp:641-670 | the batch is INSERTs only, one an id, and replays from nothing to the same map as the raw updates |
| RunningMap.CollapsePreservesReplay | src/message_translator/src/message_translator_node.cpp:633-670 | replay(collapse(a) ++ b) = replay(a ++ b) from the empty map |
| RunningMap.CollapseExactOn | src/message_translator/src/message_translator_node.cpp:633-670 | on a map in use, collapse equals full replay iff no key of it has DELETE as its last operation in the batch |
| Delivery.ServiceDeliveryStrategy.DeliverChunk | src/message_translator/src/delivery_strategy.cpp:31-103 | every reachable AGV is sent the chunk; success iff all were available and accepted |
| Delivery.ServiceDeliveryStrategy.Deliver | src/message_translator/src/delivery_strategy.cpp:106-144 | the index loop sends exactly the chunks of `Chunks`, in order and past failures; success iff every AGV accepted every chunk |
| Delivery.ChunkCount | src/message_translator/src/delivery_strategy.cpp:118 | the rounded-up division is the number of chunks |
| Delivery.ChunkAt | src/message_translator/src/delivery_strategy.cpp:124-130 | chunk c is the slice the loop cuts, the last one shortened |
| Delivery.ChunksPartition | src/message_translator/src/delivery_strategy.cpp:106-144 | the chunks concatenate to the batch, none above the chunk size |
| Delivery.SuccessReplaysBatch | src/message_translator/src/delivery_strategy.cpp:106-144 | reported success means the whole batch was replayed on every AGV |
| Delivery.AttemptBetween | src/message_translator/src/delivery_strategy.cpp:31-144 | whatever the AGVs answer, an attempt leaves each key as it was or with a geometry from the batch |
| Delivery.DeliveryByKey | src/message_translator/src/delivery_strategy.cpp:31-144 | key by key: an update reaches an AGV iff its own chunk was accepted there, or applied that far when it failed, whatever became of the other chunks |
| Translator.InvStep | src/message_translator/src/message_translator_node.cpp:401-777 | every atomic step of the callbacks, the timer and the flush thread keeps all invariants of flags, buffer and AGV maps |
| Translator.RunInv | src/message_translator/src/message_translator_node.cpp:401-777 | the invariants hold after every interleaving of steps |
| Translator.NothingLost | src/message_translator/src/message_translator_node.cpp:608-714 | in every reachable state, in-flight batch ++ buffer replays to the same map as all raw updates not yet in a successful batch |
| Translator.SuccessBringsAgvsUpToDate | src/message_translator/src/message_translator_node.cpp:641-714 | after a successful flush every AGV holds, with its latest geometry, every obstacle whose last update covered so far is an INSERT, even after partly applied failures |
| Translator.NothingLeavesEarly | src/message_translator/src/message_translator_node.cpp:447-526 | with waiting enabled no update leaves, and no flush is requested or under way, before enough namespaces are ready or the timeout fired |
| Translator.GateNeverCloses | src/message_translator/src/message_translator_node.cpp:999-1050 | once open, the readiness gate stays open over every run |
| Translator.NoLostWakeup | src/message_translator/src/message_translator_node.cpp:401-416 | outside buffering mode, gate open and buffer non-empty implies a flush is requested or about to take the buffer, or the last one failed |
| Translator.InitReadyOnce | src/message_translator/src/message_translator_node.cpp:587-599 | initialization_ready at most once, and only after a successful flush |
| Translator.FirstFlushOnce | src/message_translator/src/message_translator_node.cpp:689-698 | once a flush has succeeded that stays recorded, so the first successful flush, which starts the replay, happens at most once |
| TranslatorGate.GateOpenIff | src/message_translator/src/message_translator_node.cpp:977-1050 | after any run the gate is open iff the node need not wait, the timeout has fired, or at least one and at least agv_count different namespaces have signalled |
| TranslatorGate.OpeningDelivers | src/message_translator/src/message_translator_node.cpp:999-1050 | whatever step opens the gate, the next steps of node and flush thread deliver a collapse of what was held back |
| TranslatorGate.ClosedSendsNothing | src/message_translator/src/message_translator_node.cpp:454-526 | while the gate is closed nothing has been published and every AGV's map is as it was |
| TranslatorGate.BufferingWaits | src/message_translator/src/message_translator_node.cpp:530-580 | with buffering, until the timer has found silence or the gate has opened nothing is sent, no flush becomes due, and the buffer is what came in |
| TranslatorGate.TimerSkipsIff | src/message_translator/src/message_translator_node.cpp:530-540 | a timer tick does nothing iff a flush is under way |
| TranslatorGate.FlushedIff | src/message_translator/src/message_translator_node.cpp:684-698 | the flag of the first flush is set iff some update has been covered by a successful batch |
| TranslatorRuns.FailedFlushStrands | src/message_translator/src/message_translator_node.cpp:381-386 | outside buffering mode no step but a new update moves a stranded buffer |
| TranslatorRuns.StrandedForever | src/message_translator/src/message_translator_node.cpp:381-386 | nor does any run of such steps |
| TranslatorRuns.FailureIsReached | src/message_translator/src/message_translator_node.cpp:699-714 | with no AGV answering, the first update is stranded by a run from the initial state |
| TranslatorRuns.TimerRetries | src/message_translator/src/message_translator_node.cpp:530-579 | in buffering mode timer and thread bring a stranded buffer back into delivery |
| TranslatorRuns.RetriedIffBuffering | src/message_translator/src/message_translator_node.cpp:699-714 | without a new update a failed batch is delivered again iff buffering is enabled |
| TranslatorRuns.AnnouncesIff | src/message_translator/src/message_translator_node.cpp:587-599 | the timer publishes iff it read an empty buffer, a flush has succeeded, and it has not published before |
| TranslatorRuns.InitReadyRightIff | src/message_translator/src/message_translator_node.cpp:530-605 | from every reachable read of an empty buffer, the publication finds nothing outstanding under every behaviour of the flush thread in between, iff no non-empty batch is in flight at the read (or none will be published) |
| TranslatorRuns.InitReadyTooEarly | src/message_translator/src/message_translator_node.cpp:530-605 | a run, with one AGV and service delivery, in which the signal goes out with an update in flight |
| TranslatorRuns.AgvExactIff | src/message_translator/src/message_translator_node.cpp:633-714 | after a successful flush an AGV that started empty equals full replay iff it holds no key whose last operation is DELETE |
| TranslatorRuns.AgvExactByHistory | src/message_translator/src/message_translator_node.cpp:633-714 | judged by the updates alone, that AGV is exact if no id of an attempted batch was last deleted, and only if no id of a fully accepted batch was; an iff when no attempt failed |
| TranslatorRuns.AgvExactWithoutFailures | src/message_translator/src/message_translator_node.cpp:633-714 | in a run without failed attempts an AGV holds exactly the ids of all batches, and is exact iff none of them was last deleted |
| TranslatorRuns.CollapseIds | src/message_translator/src/message_translator_node.cpp:633-670 | a batch mentions exactly the ids its raw updates leave inserted |
| TranslatorRuns.DeletedStays | src/message_translator/src/message_translator_node.cpp:641-670 | a run in which an obstacle inserted by one flush and deleted by the next stays on the AGV |
| TranslatorTopic.OvertakesIff | src/message_translator/src/message_translator_node.cpp:447-526 | in topic mode without buffering, an update published at once leaves before an earlier one that still can leave, iff a batch is unpublished or the buffer does not replay to nothing |
| TranslatorTopic.OvertakingEnds | src/message_translator/src/message_translator_node.cpp:447-526 | after the first delivery, or once nothing waits behind an open gate, or without a gate, no later update ever overtakes |
| TranslatorTopic.OvertakenRun | src/message_translator/src/message_translator_node.cpp:447-526 | a run that publishes the newer geometry of an obstacle first and the older one last |
| TranslatorNode.MessageTranslatorNode.constructor | src/message_translator/src/message_translator_node.cpp:16-391 | the node starts in the initial state, the gate open iff it need not wait |
| TranslatorNode.MessageTranslatorNode.ObstacleUpdatesCallback | src/message_translator/src/message_translator_node.cpp:447-526 | refines the receive step: buffer, queue for the thread, or publish at once |
| TranslatorNode.MessageTranslatorNode.RequestFlush | src/message_translator/src/message_translator_node.cpp:768-772 | refines the request step |
| TranslatorNode.MessageTranslatorNode.GeofenceReadyCallback | src/message_translator/src/message_translator_node.cpp:977-1050 | refines the ready step: a false or repeated signal changes nothing, a new one is recorded, and the one that makes them enough opens the gate and makes a flush due |
| TranslatorNode.MessageTranslatorNode.GeofenceReadyTimeoutCallback | src/message_translator/src/message_translator_node.cpp:999-1022 | refines the timeout step |
| TranslatorNode.MessageTranslatorNode.BufferTimerStart | src/message_translator/src/message_translator_node.cpp:530-540 | refines the timer's first look, at the flushing flag |
| TranslatorNode.MessageTranslatorNode.BufferTimerRead | src/message_translator/src/message_translator_node.cpp:542-556 | refines its second look, at the buffer |
| TranslatorNode.MessageTranslatorNode.BufferTimerFinish | src/message_translator/src/message_translator_node.cpp:566-606 | refines its decision: request a flush, publish readiness, or neither |
| TranslatorNode.MessageTranslatorNode.FlushThreadWake | src/message_translator/src/message_translator_node.cpp:401-415 | refines the wake-up: the request is cleared before the buffer is taken |
| TranslatorNode.MessageTranslatorNode.FlushClaim | src/message_translator/src/message_translator_node.cpp:612-616 | refines the claim, and never finds the guard already set |
| TranslatorNode.MessageTranslatorNode.FlushTake | src/message_translator/src/message_translator_node.cpp:618-670 | takes the whole buffer and leaves a collapse of it as the batch |
| TranslatorNode.MessageTranslatorNode.FlushTakeNothing | src/message_translator/src/message_translator_node.cpp:623-627 | an empty buffer drops the guard and changes nothing else |
| TranslatorNode.MessageTranslatorNode.FlushDeliver | src/message_translator/src/message_translator_node.cpp:678-679 | refines the delivery, by service or by topic |
| TranslatorNode.MessageTranslatorNode.FlushSettle | src/message_translator/src/message_translator_node.cpp:681-714 | refines the outcome: success marks the flush, failure puts the batch back in front of the buffer; the replay is started iff enabled and this is the first success |
| TranslatorNode.MessageTranslatorNode.FlushRelease | src/message_translator/src/message_translator_node.cpp:747 | refines the release of the guard |
| ReplayManager.SortByStamp | src/message_translator/src/tf_replay_manager.cpp:114-129 | the result is sorted by stamp and a permutation of the input |
| ReplayManager.PublishUpTo | src/message_translator/src/tf_replay_manager.cpp:188-215 | one cursor loop publishes the buffer's next messages one by one and stops at the first not due |
| ReplayManager.TFReplayManager.BufferMessage | src/message_translator/src/tf_replay_manager.cpp:22-43 | the message goes to the end of the TF stream only |
| ReplayManager.TFReplayManager.BufferLaserScan | src/message_translator/src/tf_replay_manager.cpp:45-62 | the scan goes to the end of the scan stream only |
| ReplayManager.TFReplayManager.BufferValidation | src/message_translator/src/tf_replay_manager.cpp:64-79 | the validation goes to the end of the validation stream only |
| ReplayManager.TFReplayManager.StartReplay | src/message_translator/src/tf_replay_manager.cpp:104-160 | nothing happens without messages; otherwise all three streams are sorted, none loses a message, cursors are at the start and the base time is the earliest stamp |
| ReplayManager.TFReplayManager.ReplayTimerCallback | src/message_translator/src/tf_replay_manager.cpp:162-225 | the replay ends iff all three streams are exhausted; else, with a clock and rate that do not run backwards, a message is published iff its stamp less the base time is at most the time since the start times the rate |
| ReplayManager.PublishedIsDue | src/message_translator/src/tf_replay_manager.cpp:188-215 | after a tick at T the published part is exactly the messages stamped <= T |
| ReplayManager.TicksCompose | src/message_translator/src/tf_replay_manager.cpp:188-215 | a later tick goes on where the earlier one stopped |
| ReplayManager.ReplayTimeMono | src/message_translator/src/tf_replay_manager.cpp:183-186 | with a rate that is not negative the scaled, truncated replay time never runs backwards |
| ReplayManager.ReplayTimeIsClock | src/message_translator/src/tf_replay_manager.cpp:183-186 | a stamp is reached by the replay time iff its distance from the base time is at most the scaled time since the start; truncation makes no difference |
| ReplayManager.TruncateTowardsZero | src/message_translator/src/tf_replay_manager.cpp:184-185 | the scaled duration is cut to whole nanoseconds, towards zero |
| ReplayManager.ReplayExact | src/message_translator/src/tf_replay_manager.cpp:162-225 | over any non-decreasing clock each due message is published, once and in stamp order, and no other |
| ReplayManager.ReplayFollowsClock | src/message_translator/src/tf_replay_manager.cpp:162-225 | over any non-decreasing clock a message is published iff, by the clock alone, its distance from the base time has passed at the given rate |
| ReplayManager.ReplayCompletes | src/message_translator/src/tf_replay_manager.cpp:166-181 | a stream is exhausted iff the clock has passed all its stamps |
| ReplayManager.BaseIsEarliest | src/message_translator/src/tf_replay_manager.cpp:141-150 | the base time is after no buffered stamp; it is one of them whenever a TF message or any message stamped before now exists, and the current time otherwise |
| ReplayNode.ReplayNode.constructor | src/message_translator/src/tf_replay_manager.cpp:7-20 | without messages and before the first flush, the node starts in the initial state of the race |
| ReplayNode.ReplayNode.CallbackLook | src/message_translator/src/message_translator_node.cpp:895-926 | the read of the flush flag: a message is relayed at once, dropped if empty, or about to be buffered |
| ReplayNode.ReplayNode.CallbackBuffer | src/message_translator/src/message_translator_node.cpp:926 | the second half: the message goes to the end of its own stream, whatever the flush thread has done in between |
| ReplayNode.ReplayNode.MarkFlushed | src/message_translator/src/message_translator_node.cpp:689-690 | refines the setting of the flag |
| ReplayNode.ReplayNode.StartReplay | src/message_translator/src/tf_replay_manager.cpp:104-160 | refines the start: sorted permutations and rewound cursors, or nothing at all without messages |
| ReplayNode.ReplayNode.ReplayTimer | src/message_translator/src/tf_replay_manager.cpp:162-225 | refines the tick at the scaled time |
| ReplayRace.InvStep | src/message_translator/src/message_translator_node.cpp:681-714 | every step of callbacks, timer and flush thread keeps the streams' invariant |
| ReplayRace.OneLateMessage | src/message_translator/src/message_translator_node.cpp:895-930 | in every run at most one message is buffered after the sort, before the first tick, behind the sorted part of its own stream |
| ReplayRace.RunExactIff | src/message_translator/src/tf_replay_manager.cpp:188-215 | in every run a stream has published exactly what was due at the latest tick iff it has no late message, or that was not due, or everything sorted was |
| ReplayRace.ReplayRightIff | src/message_translator/src/tf_replay_manager.cpp:188-215 | before the first tick: every tick of a stream will be exact iff no sorted message is later than the late one |
| ReplayRace.LateRun | src/message_translator/src/message_translator_node.cpp:689-698 | a run of both threads in which a message due at time 8 has not been published by a tick at 8 |
| ReplayRace.StuckForever | src/message_translator/src/tf_replay_manager.cpp:109-112 | when the start found no message, nothing is ever published from the streams |
| ReplayRace.StuckRun | src/message_translator/src/message_translator_node.cpp:689-698 | a run whose only message is buffered after that and is never published |
| ReplayManager.LateAtTick | src/message_translator/src/tf_replay_manager.cpp:188-197 | with a message appended behind the sorted stream, a tick is exact iff that message is not yet due or everything before it is |
| ReplayManager.LateMessage | src/message_translator/src/tf_replay_manager.cpp:188-197 | every later tick is exact iff nothing still to be published is later than both the late message and the last tick |
| Bits.RoundUp | src/geofence/common/src/latency_recorder.cpp:18-31 | the capacity is the least power of two >= max(64, size) iff max(64, size) is one, or size <= 2^63 with no 32-bit gap; so for every size up to 2^32 |
| Bits.SmearResult | src/geofence/common/src/latency_recorder.cpp:24-30 | exactly when five smearing shifts plus one give the next power of two |
| Bits.WideGapExample | src/geofence/common/src/latency_recorder.cpp:24-30 | requests 2^k + 1 with k >= 32 are rounded wrongly |
| Bits.ClearLowest | src/geofence/common/src/latency_recorder.cpp:22 | s & (s - 1) is zero iff s is a power of two |
| Bits.MaskIsMod | src/geofence/common/src/latency_recorder.cpp:53 | masking with capacity - 1 is the remainder by the capacity |
| Bits.MaskSurvivesWrap | src/geofence/common/src/latency_recorder.cpp:95-111 | ... and stays so when the 64-bit index has wrapped around |
| LatencyRing.InvStep | src/geofence/common/src/latency_recorder.cpp:88-191 | every step of producer and writer keeps the ring's invariant |
| LatencyRuns.RowsArePrefix | src/geofence/common/src/latency_recorder.cpp:88-191 | in every interleaving the rows are a prefix of the accepted samples, at most capacity - 1 wait, and the index words stand for the true counts |
| LatencyRuns.CallsAddUp | src/geofence/common/src/latency_recorder.cpp:88-112 | accepted + dropped equals the calls of record, up to the one running |
| LatencyRuns.NeverOverwritesUnread | src/geofence/common/src/latency_recorder.cpp:104-109 | a slot being filled holds no sample the writer has yet to read, and unread samples stay intact |
| LatencyRuns.DroppedIffFull | src/geofence/common/src/latency_recorder.cpp:95-102 | a call drops its sample iff capacity - 1 were unread when it loaded the read index |
| LatencyRuns.ShutdownDrainsAll | src/geofence/common/src/latency_recorder.cpp:57-63 | once the writer has ended the rows equal the accepted samples; none at all if its file would not reopen |
| LatencyRuns.LookIsWritten | src/geofence/common/src/latency_recorder.cpp:127-164 | whenever the writer looks at the indices, every sample accepted by then has its row when it is next outside a drain; it does not wait for the shutdown |
| LatencyRuns.WriterEnds | src/geofence/common/src/latency_recorder.cpp:57-63 | after the destructor's signal every writer step brings it nearer its end and it is never stuck before that, so the join returns |
| LatencyRuns.RunningUntilStopped | src/geofence/common/src/latency_recorder.cpp:57-60 | the running flag is down from the destructor's signal on, and not before |
| LatencyRuns.RestsIff | src/geofence/common/src/latency_recorder.cpp:127-137 | a look goes back to sleep iff the writer is running and every accepted sample has its row |
| LatencyRuns.RecordFinishes | src/geofence/common/src/latency_recorder.cpp:88-112 | a call of record is over after at most three more accesses of its own, whatever the writer does |
| LatencyRuns.AcceptedAreOffered | src/geofence/common/src/latency_recorder.cpp:88-112 | what is accepted, and so every row, is a sample some call was given, unchanged and in the order of the calls |
| LatencyRing.DrainOneStep | src/geofence/common/src/latency_recorder.cpp:139-161 | the slot a drain step reads holds the next accepted sample, unharmed by the producer |
| LatencyRecorder.LatencyRecorder.constructor | src/geofence/common/src/latency_recorder.cpp:13-55 | for every 64-bit request the array has the least power of two >= max(64, size) iff the request is rounded up rightly, and then the recorder starts empty with all its invariants; so up to 2^32 |
| LatencyRecorder.LatencyRecorder.LoadBoth | src/geofence/common/src/latency_recorder.cpp:95-96 | refines the producer's two loads |
| LatencyRecorder.LatencyRecorder.DropIfFull | src/geofence/common/src/latency_recorder.cpp:98-102 | refines the full test on the stale read index |
| LatencyRecorder.LatencyRecorder.StorePart | src/geofence/common/src/latency_recorder.cpp:104-108 | refines a half-written slot |
| LatencyRecorder.LatencyRecorder.StoreSample | src/geofence/common/src/latency_recorder.cpp:104-109 | refines the finished slot, written in place in the array |
| LatencyRecorder.LatencyRecorder.PublishIndex | src/geofence/common/src/latency_recorder.cpp:111 | refines the release store that accepts the sample |
| LatencyRecorder.LatencyRecorder.RequestStop | src/geofence/common/src/latency_recorder.cpp:57-60 | refines the destructor's signal |
| LatencyRecorder.LatencyRecorder.Reopen | src/geofence/common/src/latency_recorder.cpp:116-123 | refines the writer's reopening, which may fail and end it |
| LatencyRecorder.LatencyRecorder.LoopTest | src/geofence/common/src/latency_recorder.cpp:127 | refines the loop test |
| LatencyRecorder.LatencyRecorder.LoadForDrain | src/geofence/common/src/latency_recorder.cpp:128-138 | refines the look at both indices: a drain of what is accepted, unless nothing waits while running |
| LatencyRecorder.LatencyRecorder.WriteRow | src/geofence/common/src/latency_recorder.cpp:139-161 | the row written is the next accepted sample |
| LatencyRecorder.LatencyRecorder.ReleaseSlots | src/geofence/common/src/latency_recorder.cpp:163-164 | refines the release of the drained slots |
| ValidationLedger.EitherOrder | src/geofence/validation_node/src/validation_node.cpp:298-333 | detection and circle entry in either order leave the same spawn, finalised by the second event with the same signed latency |
| ValidationLedger.FinalizedIsFinal | src/geofence/validation_node/src/validation_node.cpp:335-339 | a finalised latency never changes again |
| ValidationLedger.LatencyIsDifference | src/geofence/validation_node/src/validation_node.cpp:343-347 | the latency in milliseconds is detection minus circle entry, negative for an obstacle seen first |
| ValidationLedger.Pythagoras | src/geofence/validation_node/src/validation_node.cpp:249-253 | the squared distance is the sum of the squares along both axes |
| ValidationLedger.WithinIsDistance | src/geofence/validation_node/src/validation_node.cpp:253-256 | comparing squares is comparing the distance itself |
| ValidationLedger.InWindowIff | src/geofence/validation_node/src/validation_node.cpp:257-261 | in the window iff not before the spawn and at most `window` seconds after it, in whole nanoseconds |
| ValidationLedger.RecountOk | src/geofence/validation_node/src/validation_node.cpp:335-353 | the incremental counters, sum, minimum and maximum equal a recount over all spawns |
| ValidationLedger.RegisterOk | src/geofence/validation_node/src/validation_node.cpp:187-190 | a new spawn adds one to the total and nothing else |
| ValidationLedger.MissesAddUp | src/geofence/validation_node/src/validation_node.cpp:408-420 | detected + missed_near_assoc + missed_never_seen = eligible <= spawned |
| ValidationLedger.CountMissedIsSize | src/geofence/validation_node/src/validation_node.cpp:408-420 | each of the two miss counters is the number of eligible, undetected spawns with, or without, a nearest distance within the radius |
| ValidationLedger.PublishedIsOk | src/geofence/validation_node/src/validation_node.cpp:389-445 | every published result adds up so, and its average lies between its minimum and maximum, zero without samples |
| ValidationLedger.MergeKeepsMean | src/geofence/validation_node/src/validation_node.cpp:276-285 | a pending detection sits at the arithmetic mean of the observations merged into it and keeps the stamps of the first and the last |
| ValidationLedger.SightingCredited | src/geofence/validation_node/src/validation_node.cpp:587-593 | the retroactive credit is exactly what the sum of seen[id] over ids seen >= k gains |
| ValidationLedger.PruningKeepsTotal | src/geofence/validation_node/src/validation_node.cpp:458-473 | pruning changes nothing of that sum |
| ValidationLedger.TotalRightIff | src/geofence/validation_node/src/validation_node.cpp:578-593 | against all sightings ever the static-miss total is never too high, and right iff no id seen at least k times has had a sighting forgotten |
| ValidationNode.ValidationNode.constructor | src/geofence/validation_node/src/validation_node.cpp:15-123 | starts empty, with any persistent_min_reports below 1, also a negative one, clamped to 1 |
| ValidationNode.ValidationNode.FinalizeLatencyIfReady | src/geofence/validation_node/src/validation_node.cpp:335-387 | finalises iff detected and entered and not yet done, with exact statistics |
| ValidationNode.ValidationNode.PublishResult | src/geofence/validation_node/src/validation_node.cpp:389-445 | publishes the snapshot of the present state with the segment counters and the spawn it is about; its totals add up |
| ValidationNode.ValidationNode.ReportMatch | src/geofence/validation_node/src/validation_node.cpp:298-319 | pairs the spawn once, inside tolerance and window, finalises if entered, publishes one result |
| ValidationNode.ValidationNode.RecordCircleEntry | src/geofence/validation_node/src/validation_node.cpp:321-333 | records the first entry only, and publishes iff that finalised the latency |
| ValidationTrace.EnterAnnounces | src/geofence/validation_node/src/validation_node.cpp:321-333 | an entry that completes a latency announces it, and any other changes no announcement |
| ValidationNode.ValidationNode.FindSpawn | src/geofence/validation_node/src/validation_node.cpp:243-267 | the chosen spawn is the candidate of least latency, the first among equals; none iff there is no candidate |
| ValidationNode.ValidationNode.FindPending | src/geofence/validation_node/src/validation_node.cpp:276-279 | the first pending detection within the tolerance |
| ValidationNode.ValidationNode.TryMatchDetection | src/geofence/validation_node/src/validation_node.cpp:235-296 | the detection takes the best open spawn and publishes, or else merges into the first near pending one, or is appended |
| ValidationNode.PairedMeans | src/geofence/validation_node/src/validation_node.cpp:235-296 | in plain numbers: a detection goes to the latest open spawn, which is then detected at that stamp and announced in one result, or, when none is open, adds one observation to the buffer |
| ValidationNode.ValidationNode.MatchSpawn | src/geofence/validation_node/src/validation_node.cpp:298-319 | a pairing keeps everything the node remembers, and announces itself |
| ValidationNode.ValidationNode.BufferDetection | src/geofence/validation_node/src/validation_node.cpp:274-296 | an unpaired detection is merged into the first pending one within the tolerance, or appended |
| ValidationNode.FreshInOrder | src/geofence/validation_node/src/validation_node.cpp:447-456 | exactly the pending detections last seen at most max_age seconds ago stay, in order |
| ValidationNode.ValidationNode.PrunePendingDetections | src/geofence/validation_node/src/validation_node.cpp:447-456 | keeps exactly the pending detections not too old, in order, with their means |
| ValidationNode.ValidationNode.FindDetection | src/geofence/validation_node/src/validation_node.cpp:195-224 | the retroactive choice: least latency among the pending detections that fit |
| ValidationNode.ValidationNode.RegisterSpawnedObstacle | src/geofence/validation_node/src/validation_node.cpp:187-233 | a new spawn takes the best fitting pending detection out of the buffer and publishes, or waits |
| ValidationNode.RegisteredMeans | src/geofence/validation_node/src/validation_node.cpp:187-233 | in plain numbers: a new spawn takes the earliest fitting pending detection out of the buffer and is announced, or is added undetected and nothing else changes |
| ValidationNode.ValidationNode.ValidateCallback | src/geofence/validation_node/src/validation_node.cpp:154-185 | a validate event within 0.1 m of a known spawn changes nothing, any other registers |
| ValidationNode.ValidationNode.SampleRobotPose | src/geofence/validation_node/src/validation_node.cpp:483-522 | exactly the spawns within the radius enter, so that each spawn's entry stays the first pose inside since its registration, with one result for each latency that finalises |
| ValidationNode.ValidationNode.ClassifyAndTrackUnmatched | src/geofence/validation_node/src/validation_node.cpp:524-548 | intruder iff near any spawn at any time; every spawn's nearest distance stays the least over all unmatched segments since its registration |
| ValidationTrace.RemembersIff | src/geofence/validation_node/src/validation_node.cpp:483-548 | the stored nearest distance is within the radius iff some unmatched segment since the registration was; a spawn is entered iff some pose since then was inside its circle, at the stamp of the first |
| ValidationNode.ValidationNode.MissesMean | src/geofence/validation_node/src/validation_node.cpp:408-420 | in every state of the node the published near misses are the spawns eligible, never paired, and approached within the radius since they registered; eligible are those paired or entered |
| ValidationNode.ValidationNode.CountSegment | src/geofence/validation_node/src/validation_node.cpp:572-595 | counters and sightings after one segment, with static misses equal to the sum over persistent ids |
| ValidationNode.ValidationNode.CreditSighting | src/geofence/validation_node/src/validation_node.cpp:587-593 | one more sighting: k at the threshold, one beyond it, none below |
| ValidationTrace.TalliedMore | src/geofence/validation_node/src/validation_node.cpp:571-595 | counting one more segment keeps the counters equal to the history: intruders are the segments near a spawn registered before, sightings of an id the other segments that carry it |
| ValidationNode.ValidationNode.CountsMean | src/geofence/validation_node/src/validation_node.cpp:389-445 | in every state the segment counters and sightings are those of the history, and every pairing and finalised latency has gone out in a result about its spawn |
| ValidationNode.ValidationNode.PruneIdSeen | src/geofence/validation_node/src/validation_node.cpp:458-473 | above the cap exactly the ids below k go, and the static-miss total still matches |
| ValidationNode.ValidationNode.StaticMissRightIff | src/geofence/validation_node/src/validation_node.cpp:578-593 | in every state of the node the counter equals the total over all sightings ever iff no persistent id has lost one to pruning |
| ValidationTrace.PrunedReturns | src/geofence/validation_node/src/validation_node.cpp:458-473 | 50001 ids seen once and pruned, one of them seen again: with a threshold of 2 both its sightings are missing |
| ValidationNode.ValidationNode.ProcessSegment | src/geofence/validation_node/src/validation_node.cpp:571-599 | one segment, in this order: the spawns it comes near are updated, it is counted as intruder or unclaimed, its sighting credited, and the detection paired or buffered |
| ValidationNode.ValidationNode.ReportCallback | src/geofence/validation_node/src/validation_node.cpp:550-603 | all segments in order, each classified, counted once and tried for a match, then both prunings; intruder + unclaimed equals all segments ever reported |
| Regression.DenomZeroIffAllEqual | src/obstacle_heatmap_predictor/src/heatmap_predictor_node.cpp:160 | n*sum(dt^2) - sum(dt)^2 >= 0, and zero iff all stamps are equal |
| Regression.LeastSquares | src/obstacle_heatmap_predictor/src/heatmap_predictor_node.cpp:170-173 | the fitted slope minimises the squared residual over all lines, and is the only one that does |
| Regression.SlopeOfLine | src/obstacle_heatmap_predictor/src/heatmap_predictor_node.cpp:170-173 | points on a line give back its slope |
| HeatmapPredictor.TrackedObstacle.UpdateTrack | src/obstacle_heatmap_predictor/src/heatmap_predictor_node.cpp:118-135 | the history is the trimmed old one plus the new observation, and the velocity is re-estimated iff there are enough |
| HeatmapPredictor.TrackedObstacle.EstimateVelocity | src/obstacle_heatmap_predictor/src/heatmap_predictor_node.cpp:137-184 | zero below the denominator threshold, else the least-squares slopes, clamped |
| HeatmapPredictor.TrackedObstacle.Accumulate | src/obstacle_heatmap_predictor/src/heatmap_predictor_node.cpp:150-158 | the loop computes the six sums of the regression |
| HeatmapPredictor.Clamp | src/obstacle_heatmap_predictor/src/heatmap_predictor_node.cpp:175-183 | a velocity over 2 m/s keeps its direction and gets speed exactly 2, others are unchanged |
| HeatmapPredictor.NeverTooFast | src/obstacle_heatmap_predictor/src/heatmap_predictor_node.cpp:175-183 | the estimate never exceeds 2 m/s |
| HeatmapPredictor.UniformMotionRecovered | src/obstacle_heatmap_predictor/src/heatmap_predictor_node.cpp:137-184 | uniform motion is recovered exactly iff denom >= 1e-9 and the speed is at most 2 m/s, or the obstacle stands still |
| HeatmapPredictor.FastMotionKeepsDirection | src/obstacle_heatmap_predictor/src/heatmap_predictor_node.cpp:175-183 | faster uniform motion comes out at 2 m/s in its own direction |
| HeatmapPredictor.FastSightings | src/obstacle_heatmap_predictor/src/heatmap_predictor_node.cpp:162-168 | histories of genuine motion at 1 m/s that are given no velocity |
| HeatmapPredictor.TrimKeepsWindow | src/obstacle_heatmap_predictor/src/heatmap_predictor_node.cpp:124-129 | the trim keeps exactly the observations inside the window iff no old one stands behind a fresh one; none does with stamps in order |
| HeatmapPredictor.TrimStops | src/obstacle_heatmap_predictor/src/heatmap_predictor_node.cpp:124-129 | an old observation that came in after a fresh one stays in the history |
| OutlierFilter.RemoveOutliers | src/laserscan_preprocessor/src/spatial/spatial_indexer.cpp:81-171 | keeps the points at or below mean + factor * deviation of the mean neighbour distances, the deviation being the true root |
| OutlierFilter.ComputeMeanDistances | src/laserscan_preprocessor/src/spatial/spatial_indexer.cpp:97-117 | mean distance to the neighbours beyond 1e-6, zero without any |
| OutlierFilter.MeanIsCentre | src/laserscan_preprocessor/src/spatial/spatial_indexer.cpp:97-117 | that mean is the one number from which the true distances, root by root, deviate least in the squares |
| OutlierFilter.TwoDistances | src/laserscan_preprocessor/src/spatial/spatial_indexer.cpp:119-164 | of two points with different mean distances both stay iff the factor is at least one |
| OutlierFilter.KeptInOrder | src/laserscan_preprocessor/src/spatial/spatial_indexer.cpp:157-164 | the kept points are an order-preserving subsequence, of exactly the indices at or below the threshold |
| OutlierFilter.FewAreRemoved | src/laserscan_preprocessor/src/spatial/spatial_indexer.cpp:119-164 | for factor k > 0 at most n / (1 + k^2) points go, so at least one stays |
| CoordinateTransform.TransformObstacle | src/geofence/common/src/policies/coordinate_transform.cpp:136-206 | unchanged when nothing is enabled; a rectangle given by its sides alone becomes, under a matrix, the bounding box of its transformed corners; anything else is moved point by point and keeps sides and angle |
| CoordinateTransform.MatrixEntries | src/geofence/common/src/policies/coordinate_transform.cpp:18-76 | all twelve entries: the origin goes to the translation, each unit point adds its column |
| CoordinateTransform.LinesStayLines | src/geofence/common/src/policies/coordinate_transform.cpp:67-86 | lines go to lines point by point, so the four points above determine the map |
| CoordinateTransform.MirrorComesLast | src/geofence/common/src/policies/coordinate_transform.cpp:78-86 | mirroring negates the y that comes out of the matrix and nothing else |
| CoordinateTransform.TranslationMovesBox | src/geofence/common/src/policies/coordinate_transform.cpp:146-199 | a matrix without rotation moves centre and corners of a rebuilt rectangle by the translation and keeps its sides |
| CoordinateTransform.Extent | src/geofence/common/src/policies/coordinate_transform.cpp:180-190 | the loop finds the attained extremes of the corners |
| CoordinateTransform.BoxContainsImage | src/geofence/common/src/policies/coordinate_transform.cpp:146-199 | the rebuilt box contains the image of every point of the rectangle, for every matrix and angle |
| CoordinateTransform.BoxIsSmallest | src/geofence/common/src/policies/coordinate_transform.cpp:146-199 | every box that contains the image contains the rebuilt one |
| CoordinateTransform.CoversIff | src/geofence/common/src/policies/coordinate_transform.cpp:153-176 | a point lies in an oriented rectangle iff its offset from the centre, turned into the rectangle's directions, is within the half sides |
| CoordinateTransform.KeptSidesCoverIff | src/geofence/common/src/policies/coordinate_transform.cpp:146-206 | a rectangle that keeps its sides and angle under a matrix covers its image iff the mapped half sides, seen along its own sides, add up to no more than the half sides |
| CoordinateTransform.WallTurned | src/geofence/common/src/policies/coordinate_transform.cpp:146-150 | a rectangle of zero height turned by a right angle is not rebuilt and not covered |
| CoordinateTransform.MirrorExactly | src/geofence/common/src/policies/coordinate_transform.cpp:145 | mirroring alone maps the rectangle into the result iff its sides lie along the axes or it is a square on its corner (or a single point) |
| CoordinateTransform.MirrorMapsPoint | src/geofence/common/src/policies/coordinate_transform.cpp:201 | and says to which point each point goes then |
| CoordinateTransform.MirrorTilted | src/geofence/common/src/policies/coordinate_transform.cpp:145 | a 4 by 2 rectangle at the angle of cosine 0.6 and sine 0.8 is not mapped into the result |
| RectChunks.MakeRectChunks | fiware/bridge/orion_bridge.py:171-200 | concatenates back to the input; chunks of two or more are within the limit by the code's own count; no chunk has room for the next one's first rectangle; the empty input gives one empty chunk |
| RectChunks.FewestChunks | fiware/bridge/orion_bridge.py:171-200 | no contiguous split under the same rule uses fewer chunks |
| RectChunks.TextLength | fiware/bridge/orion_bridge.py:786 | the text written for a chunk is longer than the code counted by one character a comma and the digits of the total, less one |
| RectChunks.TextWithinIff | fiware/bridge/orion_bridge.py:171-177 | a chunk as written is within the limit iff the code's count leaves room for those |
| RectChunks.TextBelowTwoKilobytes | fiware/bridge/orion_bridge.py:52-55 | every accepted chunk of two or more four-number arrays stays below two kilobytes as written |
| RectChunks.TextOverLimit | fiware/bridge/orion_bridge.py:186-196 | 140 of the shortest arrays are accepted and exceed the limit as written |
| ChunkStore.NamesSortedIffHundred | fiware/bridge/orion_bridge.py:765-766 | string order of the chunk names is index order iff there are at most 100 |
| ChunkStore.PushChunks | fiware/bridge/orion_bridge.py:763-767 | chunk i is stored with the total under name i, other attributes are untouched |
| ChunkStore.Reassemble | fiware/bridge/orion_bridge.py:524-537 | collects the rectangles of all chunk attributes in name order, skipping everything else, and the total of the first that has rectangles, its own number where it has no count |
| ChunkStore.ReadsBackInOrder | fiware/bridge/orion_bridge.py:520-547 | with at most 100 chunk attributes, reading back returns the list in order |
| ChunkStore.NothingLostByName | fiware/bridge/orion_bridge.py:526-537 | with any number of chunks every rectangle is read back as often as it was stored |
| ChunkStore.ReadsBackIffHundred | fiware/bridge/orion_bridge.py:526-537 | distinct rectangles in non-empty chunks are read back in order iff there are at most 100 chunks |
| ChunkStore.HundredAndOneChunks | fiware/bridge/orion_bridge.py:526-537 | 101 chunks of one rectangle: the last is read before the twelfth |
| ChunkStore.PushThenRead | fiware/bridge/orion_bridge.py:520-547 | after a push over an older one, what is read back is the new list plus the leftover chunks; equal to the new list iff those are empty |
| ChunkStore.TotalReadBack | fiware/bridge/orion_bridge.py:535-536 | the total read back is the one pushed, whatever is left over |
| ChunkStore.LeftoverExample | fiware/bridge/orion_bridge.py:763-767 | two chunks pushed and then one: the old second chunk is read back, with the new total |
| ChunkStore.InitialSync | fiware/bridge/orion_bridge.py:524-543 | what is read is split greedily and pushed over itself with the total read; nothing happens without rectangles |
| ChunkStore.SyncThenRead | fiware/bridge/orion_bridge.py:539-543 | after a sync the list is read back with the chunks it no longer needed behind it |
| ChunkStore.SyncExactIff | fiware/bridge/orion_bridge.py:539-543 | a sync of chunks within the size rule never needs more chunks, and keeps the list iff it needs as many |
| ChunkStore.SyncDoubles | fiware/bridge/orion_bridge.py:539-543 | two stored chunks that fit in one: the second's rectangle is read back twice after a sync |
| Decimal.ValueOfDecimal | src/obstacle_aggregator/src/obstacle_aggregator_node.cpp:41-46 | reading a decimal numeral gives the number back |
| Decimal.SameValueIff | src/obstacle_aggregator/src/obstacle_aggregator_node.cpp:41-46 | two digit strings are read as one number iff they agree after their leading zeros |
| Fleet.ParseTrailingIndex | src/obstacle_aggregator/src/obstacle_aggregator_node.cpp:23-50 | the backwards scan finds the trailing digits; -1 without any, with more than 18, or out of range, else their value |
| Fleet.ParseRoundTrip | src/obstacle_aggregator/src/obstacle_aggregator_node.cpp:23-50 | parsing prefix + decimal(n) gives n iff n is a legal index, for every prefix not ending in a digit |
| Fleet.SameRangeIff | src/obstacle_aggregator/src/obstacle_aggregator_node.cpp:150-161 | two namespaces are given one range iff their range keys agree: for parsed ones iff the trailing digits agree after leading zeros, for a parsed and a hashed one iff the digits are the hash's remainder |
| Fleet.RangeNotExclusive | src/obstacle_aggregator/include/obstacle_aggregator/obstacle_aggregator_node.hpp:16-27 | namespaces with the same digits share a range whatever their prefixes, and so do those that differ in a leading zero |
| Fleet.ShiftedDecodes | src/obstacle_aggregator/src/obstacle_aggregator_node.cpp:126-134 | the moved id is in the vehicle's own range iff the local id fits, and division then recovers index and local id; nothing overflows |
| Fleet.SameLocalId | src/obstacle_aggregator/src/obstacle_aggregator_node.cpp:122-133 | one local id from two vehicles gives distinct ids iff their indices differ, however large the id |
| Fleet.ClashIff | src/obstacle_aggregator/src/obstacle_aggregator_node.cpp:122-134 | two 64-bit local ids at two indices are given one id iff id / 1000000 + index and id % 1000000 agree, directly or with one id wrapped around |
| Fleet.NoIdShared | src/obstacle_aggregator/src/obstacle_aggregator_node.cpp:110-148 | whatever the ids, the combined report, and either list of it, repeats none iff no vehicle repeats one there and no two vehicles clash |
| Fleet.SeparateByKey | src/obstacle_aggregator/src/obstacle_aggregator_node.cpp:110-148 | with local ids below 1000000, two vehicles clash iff they have one range key and report one id |
| Fleet.UntrackedClash | src/geofence/spatial_node/src/node/obstacle_report_builder.cpp:377-381 | the id of an untracked obstacle becomes the last one of the range below, and no other vehicle's fitting id |
| Fleet.UntrackedDistinctIff | src/geofence/spatial_node/src/node/obstacle_report_builder.cpp:377-381 | without tracking the unmatched ids of the fleet report are distinct iff no vehicle and no range has two unmatched obstacles |
| Fleet.BuilderIdsDistinctIff | src/geofence/spatial_node/src/node/obstacle_report_builder.cpp:337-381 | with matched obstacles numbered from 0, a vehicle's report repeats no id iff the unmatched ids are distinct and past the matched ones |
| Fleet.NeighbourClash | src/obstacle_aggregator/src/obstacle_aggregator_node.cpp:110-148 | "agv_0" with the id 999999 and "agv_1" with one untracked obstacle: different ranges, one id twice |
| Fleet.ObstacleAggregatorNode.AgvIndexFor | src/obstacle_aggregator/src/obstacle_aggregator_node.cpp:150-161 | the cache never changes an answer, and holds the namespace afterwards |
| Fleet.ObstacleAggregatorNode.ReportCallback | src/obstacle_aggregator/src/obstacle_aggregator_node.cpp:103-108 | the latest report of a namespace replaces its older one |
| Fleet.ObstacleAggregatorNode.PublishCombined | src/obstacle_aggregator/src/obstacle_aggregator_node.cpp:110-148 | nothing without reports; otherwise every report's obstacles, both lists, once and in some order of the vehicles, with moved ids |

## Left out

Reality the models idealise:

- Floating point: all of it is over the reals; square roots are a given exact root function, sine and cosine given
  numbers; the narrowing of widths to float32 and the SIMD variants are not modelled.
- Weak memory: every acquire or release access, and every critical section, is one atomic step.
- ROS publishers, timers, TF lookups, JSON, CSV rows, HTTP, logging and parameters: typed values come in, typed
  values go out. Clocks and silence are inputs.
- The KD-tree: the neighbour lists are given, in range and symmetric, not assumed reflexive; the nearest-neighbour
  distances of the filter are given lists.
- `std::hash` in the aggregator and `std::stoll`: a given function, and the value of the digits.

Parts of modelled components:

- Translator: the completion service, destruction of the flush thread, and the per-AGV order relay (two flags and a
  queue, only easy claims).
- Translator, topic mode: only service delivery has receiving maps here; of topic mode the order in which updates
  leave is modelled.
- Delivery: requests to AGVs that do not answer in time are taken to have been applied, wholly or in part, by the next
  attempt or never; one arriving later still is not modelled.
- Validation node: the counters are unbounded where the code has 32 or 64 bits.
- HeatmapPredictor.TrackedObstacle.UpdateTrack: a negative window together with a threshold of zero observations is
  excluded, since the code then reads the front of an empty history, which C++ leaves undefined.
- ReplayRace: buffering and replay are taken to be enabled; a message that comes in after the flag is set is relayed,
  and its order against the replayed ones is not modelled.
- Heatmap: the Gaussian stamping, normalisation and track eviction.
- Rectangle chunks: the text of one rectangle is given; numbers are not formatted here. Every PATCH or POST succeeds.
- Latency recorder: what happens on a capacity that is not a power of two, which only requests beyond 2^32 can give.
- Segmentation by distance, RANSAC and shape fitting, the gridmap, skill bridge, mission controller, safety node and
  leg filter.
