# GEOPM epoch detection, record log and LULESH halo exchange: a verified model

This project models three parts of the GEOPM repository in Dafny and proves what they are for.

**Online epoch detection** (`Words`, `EditDistance`, `DetectorModel`, `PeriodicityDetector`, `EpochStateMachine`,
`EpochPhases`, `EpochRecordFilter`, `EpochDetection`, `EpochSoundness`, `CircularBuffers`, `Records`).
`EditDistPeriodicityDetector` keeps a history ring of region hashes and a flat three-dimensional table whose every
index is taken modulo the history size. The class is proved to refine the recurrence `DetectorModel.Cell`, `Read` and
`BestBlock` over *all* records ever received, although old cells are overwritten all the time. What the recurrence
means is proved separately: a distance to the best suffix, an exact least cost over those edit scripts that the lost
history leaves possible, a score that is always 0 or 1 and says exactly whether the stream has just repeated a block,
and, by a theorem on primitive words, the exact period of every periodic stream. On top of it the two-state machine of
`EditDistEpochRecordFilter` is followed over whole runs: when a phase begins, is marked and ends, in terms of the
readings, when a periodic stream is followed for good, how far its epochs are apart, and exactly for which parameters
everything it detects is real.

**Short region record log** (`RecordLogModel`, `RecordLogRuns`, `RecordLogCalls`, `RecordLogStreams`, `RecordLog`,
`RecordValidation`, `AcceptedStreams`, `MergedLogs`, `ProcessRecords`, `ApplicationSampler`). `RecordLogModel.Step` is
one atomic operation of one process's log: enter, exit, epoch or dump, in any order. The classes are proved to perform
exactly these steps on the shared table; invariants, conservation, the pending records in terms of the calls, and the
shape of the delivered stream are proved over all runs. The sampler's update takes the pending records of every
process through that process's own filter and check and merges them; it succeeds exactly when all of them are
accepted, and `ProcessRecords.ProcessState.EveryUpdateIsTaken` shows that, however many updates have gone before, a
disciplined application's records always are.

**LULESH** (`HaloGeometry`, `HaloMessages`, `HaloSides`, `HaloExchange`, `HaloDelivery`, `NodalSum`, `ElementLinks`,
`GhostElements`, `MeshNodes`, `CornerList`, `NodalForces`, `TimeStep`). Ranks form a cube; the 26 neighbours are
direction vectors in the order in which the code treats them. Packing, offsets, delivery and unpacking are related to
one global mesh: after an exchange every copy of a node holds the exact sum over its owners, and every neighbour link of
an element reads its geometric neighbour. The corner list built by counting is a permutation that makes the threaded
force gather add the same numbers in the same order as the serial loop.

`DerivativeSignals` is the least-squares derivative over `CircularBuffer`; `Common` and `Arithmetic` are shared helpers.

Classes have the fields of the C++ classes, with ghost fields for what was received; their methods are specified by
functions, and the theorems are lemmas about those functions.

## Where the code and its comments differ

The model follows the code.

- `geopm/src/EditDistPeriodicityDetector.cpp:82-83` says that a cell is the distance between all records before `ii`
  and the block. The base row is 0 for every `ii` and a mismatch costs 2, so a cell is the least insert/delete distance
  between the block and *some suffix* of those records (`DetectorModel.CellIsLeastSuffixDistance`).
- `geopm/src/EditDistPeriodicityDetector.hpp:62-64` says that the score is maximised and is -1 until a stable period is
  found. The score is minimised, and -1 only until the second region entry.
- For a period up to the base period the filter compares an integer count with a product of doubles for equality. Such a
  period is detected only if that product is a whole number: `EpochDetection.HalfCountIsNotReached` is a parameter set
  with which a periodic stream is never followed, `EpochDetection.FollowedIffLockable` gives the exact condition on the
  parameters, and `EpochDetection.FollowedIffFollowable` includes a stable factor of 0, where the state decides as well.
- `geopm/src/EditDistEpochRecordFilter.cpp:197-228` resets a poor reading and then still makes the detection test,
  which a count of 0 passes when the threshold rounds down to 0. The period -1 is then taken as detected.
  `EpochSoundness.PoorPeriodIsDetected` is such a stream. `EpochStateMachine.SoundIffGrounded` gives the exact
  condition for the state machine alone, and `EpochSoundness.SoundIffSafe` and `SafeParameters` for the whole filter,
  whose detector cannot give every reading. With the default periods 4 and 3 every factor other than 0 is safe.
- `geopm/src/ApplicationRecordLog.hpp:129-140` says that an exit whose entry came before the last dump is recorded. The
  exit of a short region that is still open at a dump is absorbed as well, unless another region has been entered in
  between: `RecordLogRuns.OverlapIsNotAbsorbed` shows both, and `RecordLogRuns.MapIsFromCalls` gives the exact condition
  in terms of the calls.
- The final range check of `benchmarks/lulesh/lulesh-init.cc:292-304` accepts one value past the last corner. It never
  fires, since the list is a permutation of the corners (`CornerList.ThreadSupport.SetupThreadSupportStructures`).

## Model

| member | source | states |
|---|---|---|
| DetectorModel.CellIsLeastSuffixDistance | geopm/src/EditDistPeriodicityDetector.cpp:102-139 | Until the history is full, the cell for block `mm`, length `jj`, row `ii` is attained by, and at most, the insert/delete distance from that block to every suffix of the records before `ii`. |
| DetectorModel.CellAtLeastDistance | geopm/src/EditDistPeriodicityDetector.cpp:102-139 | However much history has been lost, no cell is below the distance from its block to some suffix of the earlier records. |
| DetectorModel.CellAtMostDistance | geopm/src/EditDistPeriodicityDetector.cpp:102-139 | A cell is at most the distance from its block to every suffix whose first record was still in the history when the block ended, however much has been lost before. |
| DetectorModel.CellIsLeastCost | geopm/src/EditDistPeriodicityDetector.cpp:77-139 | However much history has been lost, a finite cell is exactly the least cost of the edit scripts each of whose steps starts from a row that is still in the history in its round, and an infinite one means that none is cheaper. |
| DetectorModel.SurvivorTransforms | geopm/src/EditDistPeriodicityDetector.cpp:120-136 | Such a script is an edit script from a suffix of the earlier records to the block. |
| DetectorModel.CellAtMostLength | geopm/src/EditDistPeriodicityDetector.cpp:77-139 | A cell that can still be read is at most the length of its block, so the stand-in for infinity never wins. |
| DetectorModel.CellZero | geopm/src/EditDistPeriodicityDetector.cpp:102-139 | A cell is 0 if and only if its block equals the records just before `ii` and its whole diagonal was still inside the history. |
| DetectorModel.BestBlockIsBest | geopm/src/EditDistPeriodicityDetector.cpp:141-151 | The downward scan with a strict comparison chooses the longest block among those with the least score. |
| DetectorModel.ScoreIsZeroOrOne | geopm/src/EditDistPeriodicityDetector.cpp:134-153 | From the second entry on the score is 0 or 1; it is 0 exactly when, over all records ever received, the last L equal the L before them for some L of at most H - 2, and then the chosen block is the longest such L. |
| DetectorModel.ReportsBest | geopm/src/EditDistPeriodicityDetector.cpp:141-162 | From the second entry on, the score is the least cost, over such scripts, of comparing a block with the records before it; the chosen block is the longest of that cost, and the period is the least repeat in it. |
| DetectorModel.ReportIsUnique | geopm/src/EditDistPeriodicityDetector.cpp:141-162 | Only one score and one period fit this description. |
| DetectorModel.PeriodicStreamPeriod | geopm/src/EditDistPeriodicityDetector.cpp:95-162 | Once the visible past follows a primitive pattern of length p, with p at most H - 2, every update reports score 0 and period exactly p, whichever multiple of p the chosen block is. |
| EditDistance.DistanceIsLeast | geopm/src/EditDistPeriodicityDetector.cpp:120-136 | No edit script of insertions, deletions and matches is cheaper than the distance used as the specification. |
| EditDistance.DistanceIsAttained | geopm/src/EditDistPeriodicityDetector.cpp:120-136 | Some edit script has exactly that cost. |
| Words.IsPowerOfMeansCopies | geopm/src/EditDistPeriodicityDetector.cpp:195-206 | The index-wise test for a repeating block agrees with writing the copies out. |
| Words.LeastRepeatIsPrimitive | geopm/src/EditDistPeriodicityDetector.cpp:184-213 | The least repeating block of a slice is itself not a repetition. |
| Words.LeastRepeatOfStretch | geopm/src/EditDistPeriodicityDetector.cpp:160-213 | The least repeat of a whole number of copies of a primitive block, read from any phase, is the length of that block. |
| Words.PrimitiveShift | geopm/src/EditDistPeriodicityDetector.cpp:160-213 | A shift leaves the endless repetition of a primitive block unchanged if and only if it is a multiple of its length; this is the combinatorial core of the period theorem. |
| Words.SquareLength | geopm/src/EditDistPeriodicityDetector.cpp:141-162 | Inside a periodic stretch, a repeated block at least as long as the primitive pattern has a multiple of its length. |
| PeriodicityDetector.Didx | geopm/src/EditDistPeriodicityDetector.cpp:67-71 | Every table offset lies inside the table. |
| PeriodicityDetector.DidxInjective | geopm/src/EditDistPeriodicityDetector.cpp:67-71 | Two cells share a place in the table only if all three indices agree modulo the history size. |
| PeriodicityDetector.NearbyDiffer | geopm/src/EditDistPeriodicityDetector.cpp:67-93 | Indices that agree modulo H are equal or at least H apart, which is why live cells never alias. |
| PeriodicityDetector.EditDistPeriodicityDetector.constructor | geopm/src/EditDistPeriodicityDetector.cpp:47-56 | A fresh detector has received nothing and reports -1. |
| PeriodicityDetector.EditDistPeriodicityDetector.Dset | geopm/src/EditDistPeriodicityDetector.cpp:73-75 | Writes one cell and changes no cell except those that agree with it in all three indices modulo H. |
| PeriodicityDetector.EditDistPeriodicityDetector.DgetReads | geopm/src/EditDistPeriodicityDetector.cpp:77-93 | A guarded read of a cell whose place still holds it gives the recurrence's value, or the stand-in for infinity when the guard refuses. |
| PeriodicityDetector.EditDistPeriodicityDetector.Update | geopm/src/EditDistPeriodicityDetector.cpp:58-65 | After any update the object reports the score and the period of the best block by the least cost of surviving edit scripts, over all records ever received; only region entries count, and with no history an entry is refused. |
| PeriodicityDetector.EditDistPeriodicityDetector.CalcPeriod | geopm/src/EditDistPeriodicityDetector.cpp:95-162 | Restores the object invariant: every readable cell, the score and the period are those of the records received. |
| PeriodicityDetector.EditDistPeriodicityDetector.SetBaseRow | geopm/src/EditDistPeriodicityDetector.cpp:102-104 | The empty block at the newest record costs 0 in every readable row, and no older readable cell is lost. |
| PeriodicityDetector.EditDistPeriodicityDetector.SetTopRow | geopm/src/EditDistPeriodicityDetector.cpp:105-107 | Row 0 of every readable block holds its length, and no older readable cell is lost. |
| PeriodicityDetector.EditDistPeriodicityDetector.FillColumns | geopm/src/EditDistPeriodicityDetector.cpp:110-139 | Every readable cell of the new round holds the value of the recurrence. |
| PeriodicityDetector.EditDistPeriodicityDetector.FillColumn | geopm/src/EditDistPeriodicityDetector.cpp:118-139 | One more block holds the value of the recurrence in all readable rows, and despite the modulo-H aliasing every older cell and every cell of this round that will still be read is in place. |
| PeriodicityDetector.EditDistPeriodicityDetector.FillCell | geopm/src/EditDistPeriodicityDetector.cpp:121-137 | One cell gets the least of its three moves, and cells outside its residue classes stay. |
| PeriodicityDetector.EditDistPeriodicityDetector.Compare | geopm/src/EditDistPeriodicityDetector.cpp:120-131 | The penalty is 0 exactly when the compared record is still in the history and equals the newest one. |
| PeriodicityDetector.EditDistPeriodicityDetector.ChooseBlock | geopm/src/EditDistPeriodicityDetector.cpp:141-151 | The scan over block starts finds the best block and its score. |
| PeriodicityDetector.EditDistPeriodicityDetector.FindSmallestRepeatingPattern | geopm/src/EditDistPeriodicityDetector.cpp:184-213 | Returns the least d such that the slice of the history is copies of its first d records, and 1 for an empty slice. |
| PeriodicityDetector.GroupsEqual | geopm/src/EditDistPeriodicityDetector.cpp:196-206 | Comparing neighbouring groups decides exactly whether the slice is copies of its first group. |
| EpochStateMachine.RunsAreSound | geopm/src/EditDistEpochRecordFilter.cpp:191-264 | As long as the detection test refuses every poor reading, in every run a detected period is at least 1 and detectable, and counters are never negative. |
| EpochStateMachine.SoundIffGrounded | geopm/src/EditDistEpochRecordFilter.cpp:191-245 | For all parameters: every run of readings is sound if and only if the base period is at least 1 and the stable factor times the base period plus one is at least 1, so that no count of 0 reaches a threshold. |
| EpochStateMachine.FalseAlarmIsDetected | geopm/src/EditDistEpochRecordFilter.cpp:197-228 | Otherwise there is a first reading that is marked at once, with -1 as the detected period. |
| EpochStateMachine.MarksAreAPeriodApart | geopm/src/EditDistEpochRecordFilter.cpp:191-264 | For all parameters, within one detected phase of any run the period is fixed, and two marks are at least that many entries apart. |
| EpochPhases.PhaseGoesOn | geopm/src/EditDistEpochRecordFilter.cpp:230-262 | A detected phase ends exactly at the entry that completes as many readings in a row other than the followed period as the unstable factor allows; while it goes on, an entry is marked exactly when its reading is at least the followed period and as many entries have passed since the latest mark. |
| EpochPhases.PhaseBegins | geopm/src/EditDistEpochRecordFilter.cpp:197-228 | While nothing is detected, a phase begins, with a mark, exactly when the last reading has been confirmed often enough in a row, counted from the readings. |
| EpochPhases.ReadingsArePlausible | geopm/src/EditDistEpochRecordFilter.cpp:191-264 | The detector gives only readings of which this holds, on every stream. |
| EpochStateMachine.LocksOn | geopm/src/EditDistEpochRecordFilter.cpp:191-264 | From any state a run can reach, a steady lockable period is followed within a bounded number of entries, and from then on every q-th entry is marked and no other. |
| EpochStateMachine.LockedRun | geopm/src/EditDistEpochRecordFilter.cpp:231-262 | From a mark on, a followed period q is marked exactly at every q-th entry. |
| EpochStateMachine.FollowsIffLockable | geopm/src/EditDistEpochRecordFilter.cpp:216-245 | After any run whatever, and with a stable factor other than 0, a steady detectable period is eventually followed for good if and only if the parameters allow it: a whole number to count to for short periods, and an unstable threshold of at least one. |
| EpochStateMachine.FollowsIffFollowable | geopm/src/EditDistEpochRecordFilter.cpp:216-245 | The same exact condition for all parameters: with a stable factor of 0 a short period is followed unless the state already counts that very period. |
| EpochRecordFilter.EditDistEpochRecordFilter.constructor | geopm/src/EditDistEpochRecordFilter.cpp:136-168 | A new filter has seen nothing and starts in the undetected state. |
| EpochRecordFilter.EditDistEpochRecordFilter.Filter | geopm/src/EditDistEpochRecordFilter.cpp:170-188 | The answer to each record is that of the specification over everything seen so far: application epochs are dropped, other records pass, and a marked entry is followed by a numbered epoch. |
| EpochRecordFilter.EditDistEpochRecordFilter.EpochDetected | geopm/src/EditDistEpochRecordFilter.cpp:191-264 | One step of the two-state machine on the present reading, whose marks and phases `EpochPhases` tells from the readings. |
| EpochRecordFilter.MachineStep | geopm/src/EditDistEpochRecordFilter.cpp:176-178 | The machine over a run of readings advances by one step for each region entry. |
| EpochRecordFilter.OnlyEpochsChange | geopm/src/EditDistEpochRecordFilter.cpp:170-188 | Erasing epochs from the output of any input gives that input with its own epochs erased: nothing else is lost, added or reordered. |
| EpochRecordFilter.EpochsAreNumbered | geopm/src/EditDistEpochRecordFilter.cpp:178-184 | The emitted epochs carry the signals 1, 2, 3 and so on, whatever the application sent. |
| EpochRecordFilter.EpochsFollowEntries | geopm/src/EditDistEpochRecordFilter.cpp:171-189 | Every epoch of the output stands directly behind a region entry of the same time and process, and a region entry has an epoch behind it exactly when it is marked. |
| EpochDetection.PeriodicStreamsAreFollowed | geopm/src/EditDistEpochRecordFilter.cpp:170-264 | Whatever was received before, a repetition of a primitive block of length p, with p at most H - 2 and lockable, is detected within a stated number of entries, and then one epoch is emitted exactly every p region entries, for ever. |
| EpochDetection.FollowedIffLockable | geopm/src/EditDistEpochRecordFilter.cpp:216-245 | On periodic streams the condition on the parameters is exact for every stable factor other than 0: the period is followed for good if and only if it holds. |
| EpochDetection.FollowedIffFollowable | geopm/src/EditDistEpochRecordFilter.cpp:216-245 | For all parameters, a periodic stream is followed for good if and only if the state in which it finds the filter and the parameters allow it. |
| EpochDetection.HalfCountIsNotReached | geopm/src/EditDistEpochRecordFilter.cpp:226-228 | With base period 3 and factors 1.5 the count would have to equal 4.5: a stream of period 3 is never followed for good, whatever came before it. |
| EpochSoundness.EpochsAreAPeriodApart | geopm/src/EditDistEpochRecordFilter.cpp:230-262 | For all parameters and on arbitrary streams, within one detected phase of the whole filter the period is fixed and a later epoch is at least that many region entries after an earlier one; with safe parameters the period is at least 1 and detectable. |
| EpochSoundness.SoundIffSafe | geopm/src/EditDistEpochRecordFilter.cpp:191-245 | For all parameters and history sizes: what the whole filter detects is real on every stream that it takes if and only if it has no history, and so takes no entry, or no poor period that the detector can report passes the detection test with a count of 0. |
| EpochSoundness.SafeParameters | geopm/src/EditDistEpochRecordFilter.cpp:197-228 | For a base period of at least 1 this means: the stable factor is not 0, and the history or the least period reaches no further than one past the base period, or the factor times the base period plus one is at least 1. |
| EpochSoundness.PoorPeriodIsDetected | geopm/src/EditDistEpochRecordFilter.cpp:197-228 | A stream of four entries and parameters for which the period -1 is detected and an epoch is marked. |
| CircularBuffers.CircularBuffer.constructor | geopm/src/CircularBuffer.hpp:138-145 | A new buffer of the given size holds nothing. |
| CircularBuffers.CircularBuffer.Insert | geopm/src/CircularBuffer.hpp:195-208 | The buffer holds the newest values since the last clear, up to its capacity; a buffer of size 0 refuses. |
| CircularBuffers.CircularBuffer.Clear | geopm/src/CircularBuffer.hpp:166-170 | Forgets all values. |
| CircularBuffers.CircularBuffer.Size | geopm/src/CircularBuffer.hpp:154-157 | The number of values held. |
| CircularBuffers.CircularBuffer.Value | geopm/src/CircularBuffer.hpp:211-217 | The value at an index counted from the oldest, across wrap-around, and an error past the end. |
| CircularBuffers.CircularBuffer.MakeVector | geopm/src/CircularBuffer.hpp:220-231 | All values, oldest first. |
| CircularBuffers.CircularBuffer.MakeSlice | geopm/src/CircularBuffer.hpp:234-260 | Exactly the values from one index to another, across wrap-around, and an error for an empty or overlong slice. |
| CircularBuffers.RunKeepsNewest | geopm/src/CircularBuffer.hpp:166-208 | After any run of inserts and clears the contents are the last k values inserted since the last clear. |
| RecordLogModel.StepKeeps | geopm/src/ApplicationRecordLog.cpp:97-269 | Every operation keeps the writer's map, the records and the regions consistent with each other, including the lazy reset after a dump. |
| RecordLogModel.ShortenedIsLinked | geopm/src/ApplicationRecordLog.cpp:146-185 | Turning an entry into a short region record keeps all links and the enter time. |
| RecordLogModel.SignalsAreABijection | geopm/src/ApplicationRecordLog.hpp:172-177 | In every well-formed state the short region records point one to one at the whole region table. |
| RecordLogModel.CoverBound | geopm/src/ApplicationRecordLog.cpp:166-191 | A table indexed one to one has no more regions than records, so the region table never overflows first. |
| RecordLogModel.PendingHashesDiffer | geopm/src/ApplicationRecordLog.cpp:97-194 | Between two dumps no two short regions, no two pending entries and no entry and short region share a hash. |
| RecordLog.Layout.constructor | geopm/src/ApplicationRecordLog.hpp:230-235 | A new table is empty. |
| RecordLog.ApplicationRecordLog.constructor | geopm/src/ApplicationRecordLog.cpp:65-77 | A new log is empty and not set up. |
| RecordLog.ApplicationRecordLog.SetProcess | geopm/src/ApplicationRecordLog.cpp:79-86 | Fixes the process until the log is used, and fails after that. |
| RecordLog.ApplicationRecordLog.SetTimeZero | geopm/src/ApplicationRecordLog.cpp:88-95 | Fixes time zero until the log is used, and fails after that. |
| RecordLog.ApplicationRecordLog.CheckSetup | geopm/src/ApplicationRecordLog.cpp:225-243 | Fails unless process and time zero have been set, and then locks them. |
| RecordLog.ApplicationRecordLog.CheckReset | geopm/src/ApplicationRecordLog.cpp:245-269 | Forgets what the reader has taken, except a short region that is still open. |
| RecordLog.ApplicationRecordLog.AppendRecord | geopm/src/ApplicationRecordLog.cpp:272-284 | Appends one record, or fails when the table is full. |
| RecordLog.ApplicationRecordLog.Enter | geopm/src/ApplicationRecordLog.cpp:97-123 | Performs the step of the model on the shared table and the private map; fails exactly when the log is not set up or full. |
| RecordLog.ApplicationRecordLog.Exit | geopm/src/ApplicationRecordLog.cpp:125-194 | The same for an exit, whether it writes an exit record or completes a short region. |
| RecordLog.ApplicationRecordLog.Absorb | geopm/src/ApplicationRecordLog.cpp:143-192 | An absorbed exit relists, shortens and completes its region. |
| RecordLog.ApplicationRecordLog.Epoch | geopm/src/ApplicationRecordLog.cpp:196-211 | The same for an epoch, which carries the running count. |
| RecordLog.ApplicationRecordLog.DumpAll | geopm/src/ApplicationRecordLog.cpp:213-223 | Hands over all records and regions, one to one and within the table sizes, and leaves the writer's fields alone. |
| RecordLogRuns.DumpsAreIndexed | geopm/src/ApplicationRecordLog.hpp:172-177 | In every run each dump is indexed one to one and has no more regions than records. |
| RecordLogRuns.EnterTimesAreLatest | geopm/src/ApplicationRecordLog.cpp:109-109 | In every run the map holds the time of the latest entry of each of its regions. |
| RecordLogRuns.PendingIsTheWindow | geopm/src/ApplicationRecordLog.cpp:125-194 | In every run the tables account for exactly the exits since the last dump: by number, by absorption and by time. |
| RecordLogRuns.NothingIsLost | geopm/src/ApplicationRecordLog.cpp:125-223 | Conservation: dumped and pending tables together account for every exit call and all absorbed time, including regions open across dumps. |
| RecordLogRuns.EveryExitIsTallied | geopm/src/ApplicationRecordLog.hpp:129-140 | Each exit call is either recorded or absorbed, as the calls before it decide: absorbed when its region was entered since the last dump, or was carried over it as an open short region. |
| RecordLogRuns.MapIsFromCalls | geopm/src/ApplicationRecordLog.cpp:125-269 | In every run, with regions nested, overlapping or not, the region map by which the writer decides holds exactly the regions entered since the last dump and the one carried over it, told from the calls alone. |
| RecordLogRuns.OverlapIsNotAbsorbed | geopm/src/ApplicationRecordLog.cpp:245-270 | Two runs that differ only in another region entered before the dump: in one the exit of the open short region is absorbed after the dump, in the other it is not. |
| RecordLogRuns.ExitsAreConserved | geopm/src/ApplicationRecordLog.cpp:125-223 | For each hash the number of exit calls equals the exit records plus the completions, dumped or pending. |
| RecordLogRuns.RegionIsItsWindow | geopm/src/ApplicationRecordLog.cpp:188-191 | Each pending short region has counted exactly the exits absorbed since the last dump and summed exit time minus latest enter time over exactly those. |
| RecordLogCalls.PendingIsToldByCalls | geopm/src/ApplicationRecordLog.cpp:97-211 | In every run, with regions nested, overlapping or not, the pending records are, in order, those that the calls since the last dump make, each with the time of its call, the process, and its region or epoch number. |
| RecordLogCalls.ShortIsToldByCalls | geopm/src/ApplicationRecordLog.cpp:125-194 | The record of an entered region is a short region record exactly when the calls have left the region since, or carried it over the last dump; otherwise it is still an entry. |
| RecordLogStreams.RunsTrack | geopm/src/ApplicationRecordLog.cpp:97-269 | When at most one region is open at a time, the delivered stream and the pending records fit together after every operation. |
| RecordLogStreams.DumpsAreWellShaped | geopm/src/ApplicationRecordLog.cpp:97-269 | Then every dump, epochs erased, has the form EXIT? SHORT* ENTRY? with distinct hashes, and in the stream of all dumps each entry is followed next by its exit and each exit has such an entry. |
| MergedLogs.CoverCounts | geopm/src/ApplicationRecordLog.hpp:172-177 | The number of short regions of a dump equals the number of its short region records. |
| ApplicationSampler.ApplicationSampler.constructor | geopm/src/ApplicationSampler.cpp:140-162 | A new sampler has empty buffers. |
| ApplicationSampler.ApplicationSampler.Update | geopm/src/ApplicationSampler.cpp:209-256 | Succeeds if and only if every process has pending only what its filter and its check accept; then the buffers are the merge, in order, of what was pending, indexed one to one, and every log, filter and check has moved on by exactly that. |
| ApplicationSampler.ApplicationSampler.Reindex | geopm/src/ApplicationSampler.cpp:241-252 | Moves the signals of all short region records of a process and of nothing else, although it stops after the last one. |
| ApplicationSampler.ApplicationSampler.GetShortRegion | geopm/src/ApplicationSampler.cpp:263-270 | Selects a region by signal, and fails past the end. |
| MergedLogs.MergedIsIndexed | geopm/src/ApplicationSampler.cpp:209-256 | The signals of the merged records cover the merged region buffer exactly once. |
| MergedLogs.MergedSelects | geopm/src/ApplicationSampler.cpp:241-255 | Each shifted signal still selects its own process's region, and all other records pass unchanged. |
| MergedLogs.FilteredIsIndexed | geopm/src/ApplicationSampler.cpp:221-230 | A dump that went through the epoch filter is still indexed one to one. |
| ProcessRecords.Collect | geopm/src/ApplicationSampler.cpp:217-240 | One process in one update: succeeds if and only if the filter can take its entries and the check accepts all that comes out; then the pending records are taken, filtered with the state of all earlier updates and indexed one to one. |
| ProcessRecords.FilterRecords | geopm/src/ApplicationSampler.cpp:221-230 | Filters and checks record by record; succeeds if and only if the filter has a history for its entries and all its output is accepted, and the result is then the filter applied to the whole dump. |
| ProcessRecords.CheckRecords | geopm/src/ApplicationSampler.cpp:231-236 | Succeeds if and only if every record is accepted in its turn. |
| ProcessRecords.ProcessState.constructor | geopm/src/ApplicationSampler.cpp:363-381 | A process starts from the state of its log, filter and check. |
| ProcessRecords.ProcessState.Take | geopm/src/ApplicationSampler.cpp:217-240 | Takes what the process has pending if and only if it is accepted, and moves the log, the filter and the check on by exactly that. |
| ProcessRecords.ProcessState.CallKeepsStep | geopm/src/ApplicationSampler.cpp:215-240 | An application call between two updates leaves the filter and the check in step with what has been delivered. |
| ProcessRecords.ProcessState.DisciplinedIsTaken | geopm/src/ApplicationSampler.cpp:215-240 | When filter and check are in step with everything delivered, an update accepts all that a disciplined application has pending, filtered or not, and leaves them in step. |
| ProcessRecords.ProcessState.EveryUpdateIsTaken | geopm/src/ApplicationSampler.cpp:209-240 | In every run of a disciplined application, from a new process on, an update at any point and after any number of earlier ones accepts all that is pending. |
| RecordValidation.ValidateRecord.constructor | geopm/src/ValidateRecord.cpp:45-53 | A new check has seen nothing. |
| RecordValidation.ValidateRecord.Check | geopm/src/ValidateRecord.cpp:64-121 | Refuses exactly a change of process, a decreasing time, a hint that is no single hint bit, an invalid hash, a nested entry, an unmatched exit or an epoch out of sequence. |
| RecordValidation.PairedIsAccepted | geopm/src/ValidateRecord.cpp:64-121 | A stream of one process with growing times, numbered epochs and paired regions passes the check. |
| AcceptedStreams.AcceptedIffConforms | geopm/src/ValidateRecord.cpp:64-121 | A stream is accepted record by record if and only if all records are of one process, times never decrease, hints are single hint bits, hashes are valid, epochs are numbered from 1, and entries and exits alternate, each exit leaving the region just entered. |
| AcceptedStreams.HintsAreBits | geopm/src/ValidateRecord.cpp:79-87 | The accepted hints are exactly the powers of two from bit 32 to bit 40. |
| AcceptedStreams.RefusedChangesTimeOnly | geopm/src/ValidateRecord.cpp:64-121 | A refused record opens, closes and counts nothing; it has moved the time if its process and time were right. |
| RecordValidation.RunsAreStamped | geopm/src/ApplicationRecordLog.cpp:97-211 | In every run everything written carries the process, growing times, valid hashes and epochs numbered from 1. |
| RecordValidation.DeliveredIsAccepted | geopm/src/ApplicationSampler.cpp:231-236 | If the application has at most one region open at a time, a clock that does not run backwards and 32-bit hashes, the sampler's check accepts every record of every dump. |
| RecordValidation.FilteredIsAccepted | geopm/src/ApplicationSampler.cpp:221-230 | The same holds behind the epoch filter. |
| RecordValidation.FilterInParts | geopm/src/ApplicationSampler.cpp:217-230 | Filtering dump by dump is filtering the whole stream. |
| RecordValidation.CheckInParts | geopm/src/ApplicationSampler.cpp:217-236 | Checking dump by dump is checking the whole stream. |
| HaloGeometry.DirAtIsADir | benchmarks/lulesh/lulesh-comm.cc:106-351 | The order of the messages lists all 26 directions once each: 6 faces, 12 edges, 8 corners. |
| HaloGeometry.PartnersPair | benchmarks/lulesh/lulesh-comm.cc:106-351 | Each direction number has one partner, the number of the way back. |
| HaloGeometry.PlaceRoundTrip | benchmarks/lulesh/lulesh-init.cc:706-709 | The rank of a place in the cube lies in range, and the place is found again from it. |
| HaloGeometry.RankRoundTrip | benchmarks/lulesh/lulesh-init.cc:706-709 | Every rank in range has a place in the cube from which it is found again, so ranks and places correspond one to one. |
| HaloMessages.AlignReal | benchmarks/lulesh/lulesh.h:99-102 | Rounds up to the next multiple of the padding. |
| HaloMessages.AlignIsMasking | benchmarks/lulesh/lulesh.h:101-102 | The bit mask of the macro is this rounding. |
| HaloMessages.MessagesMatch | benchmarks/lulesh/lulesh-comm.cc:59-353 | A rank receives from a direction exactly when its neighbour there sends back, with equal counts, for either flag value and for face-only exchanges too. |
| HaloMessages.NumbersMatch | benchmarks/lulesh/lulesh-comm.cc:59-353 | The same for message numbers: receive i pairs with send Partner(i) of the neighbour. |
| HaloMessages.PostsByRank | benchmarks/lulesh/lulesh-comm.cc:59-841 | With the flag off a rank receives from higher ranks and sends to lower ranks only, with it on it exchanges with all neighbours, and an exchange of planes leaves out all but the six faces. |
| HaloMessages.RequestsReach | benchmarks/lulesh/lulesh-comm.cc:59-841 | The posted requests reach another rank exactly when it is one step away and, in a one-sided exchange, on the right side, and then with all fields of the side between them. |
| HaloMessages.PeersDiffer | benchmarks/lulesh/lulesh-comm.cc:106-351 | Different directions lead to different ranks, so sender and receiver identify a message. |
| HaloMessages.CountFits | benchmarks/lulesh/lulesh-comm.cc:106-351 | Each message fits the slot reserved for it, also the corner messages of one cache line. |
| HaloMessages.SlotsAreDisjoint | benchmarks/lulesh/lulesh-init.cc:318-356 | On every rank the slots of all messages are pairwise disjoint and inside the allocated buffer. |
| HaloMessages.NeighbourRank | benchmarks/lulesh/lulesh-comm.cc:106-351 | The rank number computed for a peer is that of the place one step away. |
| HaloMessages.CommRecv | benchmarks/lulesh/lulesh-comm.cc:59-353 | Posts exactly the specified requests: peers, offsets and counts, in order. |
| HaloSides.PosOfCell | benchmarks/lulesh/lulesh-comm.cc:405-841 | Each cell of a side has one position in the message, and that position holds it. |
| HaloSides.CellOfPos | benchmarks/lulesh/lulesh-comm.cc:405-841 | Each position of a message holds one cell of the side. |
| HaloSides.SidesAgree | benchmarks/lulesh/lulesh-comm.cc:405-1257 | Sender and receiver order the shared side in the same way. |
| HaloSides.MessageKeepsOrder | benchmarks/lulesh/lulesh-comm.cc:405-1257 | A message lists the cells of a side in the order in which they lie in the field. |
| HaloExchange.PackSide | benchmarks/lulesh/lulesh-comm.cc:405-841 | Copies one side of all fields into the buffer and writes nothing outside its slot. |
| HaloExchange.CommSend | benchmarks/lulesh/lulesh-comm.cc:357-841 | Posts exactly the specified requests, and when it is done every posted message is intact in the buffer. |
| HaloExchange.AddSide | benchmarks/lulesh/lulesh-comm.cc:891-1257 | Adds each received value to its node and changes no other node. |
| HaloExchange.CommSBN | benchmarks/lulesh/lulesh-comm.cc:848-1257 | Adds to each node exactly the shares of all received messages. |
| HaloDelivery.PackedIsSent | benchmarks/lulesh/lulesh-comm.cc:357-841 | The buffer that CommSend leaves carries the values that the fields had before the exchange. |
| HaloDelivery.BothPost | benchmarks/lulesh/lulesh-comm.cc:59-841 | Each posted receive is paired with a send of the neighbour it comes from. |
| HaloDelivery.PairedIsPartner | benchmarks/lulesh/lulesh-comm.cc:59-841 | Nothing else is paired with that receive: sender and receiver identify a message. |
| HaloDelivery.DeliveryExists | benchmarks/lulesh/lulesh-comm.cc:59-841 | Whatever the ranks send, all messages of a rank can be delivered together, since each has its own slot. |
| HaloDelivery.ReceivedValue | benchmarks/lulesh/lulesh-comm.cc:59-841 | What is received for a shared node is the value that the sender holds for the same node. |
| NodalSum.OwnersAreNear | benchmarks/lulesh/lulesh-comm.cc:848-1257 | Only the 27 ranks around a rank can own one of its nodes. |
| NodalSum.SharedIsOnSide | benchmarks/lulesh/lulesh-comm.cc:848-1257 | A neighbour owns a node exactly when the node lies on the side towards it. |
| NodalSum.ShareIsNeighbours | benchmarks/lulesh/lulesh-comm.cc:848-1257 | What a message adds to a node is the neighbour's earlier value of the same global node. |
| NodalSum.GlobalIsAround | benchmarks/lulesh/lulesh-comm.cc:848-1257 | The sum over all ranks of the grid is the sum over the 27 places around any owner. |
| NodalSum.EveryCopyIsTheSum | benchmarks/lulesh/lulesh-comm.cc:848-1257 | After send, delivery and CommSBN every rank's copy of a node is the exact sum of the values of all ranks that own it, so all copies agree. |
| NodalSum.OwnersMultiply | benchmarks/lulesh/lulesh-comm.cc:848-1257 | A node has 1, 2, 4 or 8 owners: the product of its owners along the three axes. |
| NodalSum.UnsharedIsUnchanged | benchmarks/lulesh/lulesh-comm.cc:848-1257 | A node with one owner is unchanged. |
| ElementLinks.FlagShows | benchmarks/lulesh/lulesh.h:60-88 | Setting the flag of a side shows under the mask of that side. |
| ElementLinks.OtherFlagsStay | benchmarks/lulesh/lulesh.h:60-88 | Setting the flag of a side leaves the flags of the other five sides alone. |
| ElementLinks.VisitedElement | benchmarks/lulesh/lulesh-init.cc:586-645 | The boundary loops visit each element of each side exactly once, at its position in the ghost area. |
| ElementLinks.InnerLinksPair | benchmarks/lulesh/lulesh-init.cc:516-538 | The links of opposite sides undo each other, also where they wrap, and exactly the first or last elements of the block, one stride of them, link to themselves. |
| ElementLinks.Connectivity.SetupElementConnectivities | benchmarks/lulesh/lulesh-init.cc:513-539 | Each element is linked to the next one inside the block along all six directions, or to itself. |
| ElementLinks.Connectivity.SetupBoundaryConditions | benchmarks/lulesh/lulesh-init.cc:543-647 | Each side of each element gets the right flag, and links across shared sides point to the right ghost element; all other links stay. |
| ElementLinks.Connectivity.GhostIndices | benchmarks/lulesh/lulesh-init.cc:552-584 | The ghost areas of the existing neighbours follow each other behind the elements. |
| GhostElements.CommMonoQ | benchmarks/lulesh/lulesh-comm.cc:1684-1834 | Fills the ghost elements of each existing side with the message from there and leaves the elements alone. |
| GhostElements.BoundIsMeshEdge | benchmarks/lulesh/lulesh-init.cc:586-645 | A side is flagged symmetry or free exactly when the neighbour would lie outside the global mesh. |
| GhostElements.EdgesAreSymmetricBelow | benchmarks/lulesh/lulesh-init.cc:586-645 | Symmetry planes are exactly the edges of the global mesh through the origin, and free surfaces exactly those opposite. |
| GhostElements.FlagTellsNeighbour | benchmarks/lulesh/lulesh.cc:1808-1890 | The flag under the mask of a side determines how the side ends, and reads inner or COMM exactly when there is a neighbour in the global mesh. |
| GhostElements.InnerLinkIsBeside | benchmarks/lulesh/lulesh-init.cc:513-539 | A link inside the block leads to the element one step away. |
| GhostElements.LinkReadsNeighbour | benchmarks/lulesh/lulesh-comm.cc:1736-1834 | After CommMonoQ, following any of the six links whose flag is inner or COMM reads the value of the geometric neighbour in the global mesh of (tp * nx) cubed elements. |
| MeshNodes.BuildMesh | benchmarks/lulesh/lulesh-init.cc:216-237 | The running node numbers give each element its eight corner nodes. |
| MeshNodes.CornersDiffer | benchmarks/lulesh/lulesh-init.cc:216-237 | The eight corners of an element are different nodes. |
| MeshNodes.CornersGoRound | benchmarks/lulesh/lulesh-init.cc:216-237 | The corners go once round the lower face, starting along the row, and then lie one plane above. |
| MeshNodes.NeighboursShareCorners | benchmarks/lulesh/lulesh-init.cc:216-237 | Neighbouring elements share the nodes of the face between them. |
| MeshNodes.NodesAreInMesh | benchmarks/lulesh/lulesh-init.cc:216-237 | All entries of the node list are nodes of the block. |
| CornerList.ThreadSupport.SetupThreadSupportStructures | benchmarks/lulesh/lulesh-init.cc:243-315 | With more than one thread the starts are running totals and each slice lists the corners of its node; the range check never fails; with one thread there is no list. |
| CornerList.CornersAreExact | benchmarks/lulesh/lulesh-init.cc:281-290 | The slice of a node contains exactly the corners that lie on it. |
| CornerList.AllCornersCounted | benchmarks/lulesh/lulesh-init.cc:259-273 | The counts of all nodes add up to the number of corners. |
| CornerList.ListIsPermutation | benchmarks/lulesh/lulesh-init.cc:281-304 | The list is a permutation of all corners: each has exactly one place. |
| NodalForces.IntegrateStressForElems | benchmarks/lulesh/lulesh.cc:524-617 | Each node gets the corner forces of its elements, added in element order, from its old value in one thread and from zero in several; with zeroed forces the results are identical for any addition, rounded or not. |
| NodalForces.SliceTotal | benchmarks/lulesh/lulesh.cc:595-609 | Gathering a node's slice adds the same numbers in the same order as the element loop. |
| NodalForces.GatherIsScatterFromZero | benchmarks/lulesh/lulesh.cc:579-612 | In exact arithmetic the two ways agree at a node if and only if it started from zero. |
| NodalForces.ForcesAreConserved | benchmarks/lulesh/lulesh.cc:579-612 | No force is lost or counted twice: the node totals add up to the sum of all corner forces. |
| TimeStep.TimeControl.ProposeStep | benchmarks/lulesh/lulesh.cc:205-214 | One rank proposes the step that `CandidateIsLeast` describes. |
| TimeStep.CandidateIsLeast | benchmarks/lulesh/lulesh.cc:205-214 | The proposal is the lesser of half the Courant limit and two thirds of the hydro limit, except exactly when the hydro limit is at least half and less than three quarters of the Courant limit, where half the Courant limit is proposed. |
| TimeStep.HydroLimitIsPassedOver | benchmarks/lulesh/lulesh.cc:208-214 | Limits for which two thirds of the hydro limit would be less than what is proposed. |
| TimeStep.AdaptedByProducts | benchmarks/lulesh/lulesh.cc:222-238 | A lesser proposal is taken at once, a growth below the lower factor is not made, one above the upper factor is cut to it, and the largest step caps all. |
| TimeStep.GivenStepIsKept | benchmarks/lulesh/lulesh.cc:201-201 | The first step, and with a fixed step every step, is wanted as long as the one before. |
| TimeStep.TimeControl.TimeIncrement | benchmarks/lulesh/lulesh.cc:197-252 | Performs one tick of the clock. |
| TimeStep.TimeControl.MainLoop | benchmarks/lulesh/lulesh.cc:2771-2783 | The loop ends, with the clock of the specified run, once the stop time or the cap on the cycles is reached, and does not pass the stop time. |
| TimeStep.TickAdvances | benchmarks/lulesh/lulesh.cc:240-251 | Each step advances the time but not past the stop time, and leaves nothing or at least a third of the step. |
| TimeStep.TickFits | benchmarks/lulesh/lulesh.cc:240-249 | The wanted step is taken unless less than four thirds of it remain; then the step ends at the stop time, or is two thirds of the wanted one and the next step, if wanted as long, ends there. |
| TimeStep.StepIsWithinLimits | benchmarks/lulesh/lulesh.cc:201-238 | An adaptive step is within the limits of every rank, the largest step and the largest growth. |
| TimeStep.RunsAdvance | benchmarks/lulesh/lulesh.cc:2771-2772 | Over whole runs time and cycle strictly increase as long as neither the stop time nor the cap on the cycles is reached, and time never passes the stop time. |
| TimeStep.StopTimeIsReached | benchmarks/lulesh/lulesh.cc:2771-2772 | If no rank ever proposes less than some least step, and the cap allows the number of cycles which that step determines, the loop reaches exactly the stop time within that number. |
| TimeStep.ReachedIffInTime | benchmarks/lulesh/lulesh.cc:2771-2772 | The capped loop reaches the stop time if and only if the loop without a cap is there after the cycles that the cap allows. |
| TimeStep.TooFewCycles | benchmarks/lulesh/lulesh.cc:2771-2772 | If the cycles that the cap allows, each of the longest possible step, do not cover the remaining time, the loop ends before the stop time. |
| TimeStep.OneCycleIsTooFew | benchmarks/lulesh/lulesh.cc:2771-2772 | Such a run: with a cap of 1 one cycle of length 1 does not lead to a stop time of 10. |
| DerivativeSignals.ComputeNext | geopm/src/DerivativeSignal.cpp:71-105 | Inserts the sample and returns the slope of the regression line over the newest samples, or no number while there are fewer than two. |
| DerivativeSignals.DenominatorSign | geopm/src/DerivativeSignal.cpp:82-101 | The denominator is never negative, and zero exactly when all times are equal. |
| DerivativeSignals.ZeroOverZero | geopm/src/DerivativeSignal.cpp:100-102 | When all times are equal the numerator is zero too. |
| DerivativeSignals.SlopeOfLine | geopm/src/DerivativeSignal.cpp:82-102 | On samples of y = a t + b whose times are not all equal the result is exactly a. |
| DerivativeSignals.SlopeIsLeastSquares | geopm/src/DerivativeSignal.cpp:80-102 | The computed slope is that of the line with the least squared error of all lines. |
| DerivativeSignals.DerivativeSignal.constructor | geopm/src/DerivativeSignal.cpp:45-58 | A new signal has no samples and is not ready. |
| DerivativeSignals.DerivativeSignal.SetupBatch | geopm/src/DerivativeSignal.cpp:60-67 | Makes the signal ready. |
| DerivativeSignals.DerivativeSignal.SampleSignal | geopm/src/DerivativeSignal.cpp:107-125 | Fails until the batch is set up; takes a sample only when the time has moved, so from the second sample on the result is always a number. |
| DerivativeSignals.RunKeepsMoved | geopm/src/DerivativeSignal.cpp:107-125 | After any run of calls the history holds the newest of the samples with which the time moved on. |

## Left out

- Floating point: times of the record log are whole ticks, LULESH values, the derivative and the hysteresis factors
  are exact reals. Sums over ranks are exact; `NodalForces.IntegrateStressForElems` holds for any addition, also a
  rounded one.
- Shared memory, its locks, MPI requests and OpenMP scheduling: each log operation is one atomic step, and message
  delivery is a relation between the send buffers and a receive buffer that pairs the posted requests.
- 64-bit width of hashes, signals and epoch counts, and overflow of the record counter.
- A log whose record table is full: `append_record` throws and the model says only that the call fails, because the
  writer's map is half updated by then.
- `CircularBuffer::set_capacity`: with a wrapped buffer it does not keep the order, and no modelled caller uses it.
- Parsing of filter names: the filter is modelled with its parameters given.
- PeriodicityDetector.EditDistPeriodicityDetector.constructor: requires a history size of at most 1290, the largest
  one whose table index, computed by the code as a 32-bit int, does not overflow.
- ApplicationSampler.ApplicationSampler.Update: takes the processes as a sequence in the order of the process map,
  with the objects each is made of as a ghost argument; when an update fails it says nothing about the half-filled
  buffers, and the hint times that the same function adds up are not modelled.
- HaloExchange.PackSide: one loop over message positions stands for the nested row and column loops of each of the 26
  packing blocks; the node at each position is given by `HaloSides.SideCell`. The same holds for `HaloExchange.AddSide`.
- ElementLinks.Connectivity.SetupBoundaryConditions: the six link arrays are the rows of one table, in the order of
  the six directions, and the six blocks of the loop body are one block for a direction.
- NodalForces.IntegrateStressForElems: takes the corner forces as given and treats one of the three force components.
- `RecordValidation` states the three bit tests on a hint as membership in the nine single-bit hints.
- `CommSyncPosVel`: copies of a node are overwritten from different neighbours, so agreement does not follow from the
  code.
- Region index sets, the hydrodynamics kernels, symmetry planes, coordinates of nodes, visualisation and command line
  of LULESH.
- InitMeshDecomp for a rank count that is not a cube, where the program stops.
- TimeStep.TimeControl.MainLoop: takes the reduced proposal of each cycle, as a function of the cycle, in place of the
  hydrodynamics that produce it, and asks for positive proposals, a positive first step and largest step, and a growth
  factor of at least 1.
- `DerivativeSignal::read`, which samples in a sleep loop, and the two signals that feed `sample`: their values are
  parameters.
- Controller, agents, endpoints, IO groups and the process discovery of the sampler.
