# cachetag verification model

A Dafny model of the parts of the cachetag repository whose correctness is not visible from any one function, with
proofs. `dafny verify dfyconfig.toml` checks all of it.

## What is modelled

**Strict invalidation (`src/`).** The VMOD promises that once a purge has returned success, nothing older than it is
served. `Strictness` states that as a law over every interleaving of purges, publications, stale checks, sweeps,
certificates and reclaims. Below it, `PurgeHistory` says what the purge map means and what marking, pruning and
reclaiming do to that meaning; `PurgeTable`, `Select` and `TableCopies` are the hash table, the selection and the
copying loops in place; `PurgeMap` is the map with its counters and floors, whose invariant is that it answers for the
purges it has accepted. `EpochGate` is the reader gate, `TableRetirement` uses it to free tables, and `ProbeRace` takes
one probe and one prune apart into their loads and stores, and `StaleLookups` one stale check into its lookups.
`SweepVector` is the dense object array with the background sweep, `LittleEndian` and `KeyPurgeRecord` the bytes of the
purge log records.

**The workload driver.** `UniformTags` and `BulkPurge` prove closed forms against brute-force counts. `Pacer`,
`LatencyRecorder` and `OriginEpoch` model the pacer, the bounded recorder and the epoch lease, `RecorderRace` the
recorder's concurrent adds, with the summarizer's acceptance tests as their partners. `Percentile` compares the two
percentile functions.

**The controlled-perf coordinator.** `LineReader`, `PhaseControl` and `PhaseHandshake` go from bytes to the accepted
language to the composition with the driver and the stop client. `ProcessTree` relates the closure loop to the parent walk.

**The sampler.** `PhaseIntervals`, `PhaseSampler` and `PhaseTotals` prove that phase attribution telescopes;
`DetailCollector` is the single-outstanding-helper machine, `HelperReport` what its helpers print and how it is judged,
and `CollectorEnd` when it is over.

**Fixtures.** `FixtureCodec`, `Utf8`, `Numerals`, `FixtureGenerator`, `FixtureFanout` and `FixtureMetrics` cover the record
and file checks, the hashed stream, the generator, how many objects share a tag, and the histograms.

`Division` and `Text` hold the arithmetic and the splitting and joining that several modules share.

## Where the code does not keep a promise

Each of these is a lemma with a concrete run, and an exact condition under which the promise does hold.

- `docs/strictness.md` promises that nothing older than a successful purge is served, and that every way it can fail errs
  towards invalidating too much. A prune stores the replacement table before the floors
  (`src/vmod_cachetag_purgemap.c:976-983`) and its rollback lowers the floors while probes may still hold the replacement
  (`src/vmod_cachetag_purgemap.c:467-472`), but a probe reads table and floors in that order. So a probe can miss a
  completed purge inside a prune, `ProbeRace.OverlapMisses`, and after its rollback, `ProbeRace.RollbackMisses`; and
  exactly then, `ProbeRace.SoundUnlessFloorLags`. The other modules follow the code with a probe as one step with respect
  to a prune and to its rollback.
- A stale check looks its object up in the index, among pending publications, and in the index again, but asks whether the
  object is dying only before that (`src/vmod_cachetag_purgemap.c:1725-1752`). An object that is attached, condemned and
  removed between the lookups is let through: `StaleLookups.RemovedObjectPasses`, and exactly then,
  `StaleLookups.RightUnlessGone`.
- Rolling back a prune flips the reader gate a second time without looking at the slot the prune retired
  (`src/vmod_cachetag_purgemap.c:463-468`). `TableRetirement.RollbackFreesHeldTable` frees a table under a reader left in
  that slot, and retirement is safe exactly without such a reader: `TableRetirement.SafeUnlessRolledBackUndrained`.
- The pacer rounds twice. Due times are cut to whole nanoseconds, so that a slot can start before its exact time and one
  operation too many be started: `Pacer.NeverBurstsIffDivides`. The slot length is cut too before the current slot is
  computed from it, so that slots not yet missed are skipped: `Pacer.SkipsOnlyMissedIffDivides`.
- The sampler moves its previous sample back with the clock: `PhaseTotals.ClockStepsBack`. What the samples must look like
  for attribution to be exact is `PhaseTotals.TelescopesIff`, and for one phase `PhaseTotals.TelescopesUnlessBackIff`.
- Two kinds of helper output end detail collection for good: output that raises, such as `null`, which `dict.update` does
  not take; and a report with the right identity and the status `abandoned`, whose request stays outstanding with nothing
  to release it: `CollectorEnd.TwoEnds`, and exactly then, `CollectorEnd.OverIff`.
- A reaping pass takes the lock once to list and again to release (`benchmarks/run_with_metrics.py:635-647`), on more than
  one thread, and the same request is submitted again. A pass can so release a request accepted since it listed it. Then a
  queued request is not outstanding, `DetailCollector.QueuedNotOutstanding`, an attempt is never classified,
  `DetailCollector.AttemptDropped`, or two helpers are alive, `DetailCollector.TwoHelpers`; and exactly then,
  `DetailCollector.AtMostOneHelper`, `DetailCollector.QueueIsNeverFull` and `DetailCollector.CountersBalance`.
- The coordinator's read timeout also runs while a counter is enabled. Giving up, the coordinator kills perf at once and
  the benchmark later, so that measured work goes on uncounted: `PhaseHandshake.WorkMayOutlastTheCoordinator`, and exactly
  then, `PhaseHandshake.WorkIsCounted` and `PhaseHandshake.TimeoutHarmsIffCounting`.
- The record decoders ignore the reserved bytes: `KeyPurgeRecord.ReservedIsIgnored`, `KeyPurgeRecord.PayloadRoundTrip` and
  `KeyPurgeRecord.BatchPayloadRoundTrip`. The record of the last purge there can be is refused:
  `KeyPurgeRecord.RecordOfPurge`.

## How the source is rendered

- Integers are unbounded unless a width matters: no purge is accepted once the sequence is 2^64 - 1, and the byte codecs
  state what fits. `fold & (nslot - 1)` is `fold % nslot`. Folds are never 0 or 2^64 - 1, as `cachetag_fold_digest` ensures
  (`src/vmod_cachetag_index.c:1077-1082`).
- Whatever an allocation, the log or a checkpoint may do is an argument of the operation, so every failure is covered.
- No code path stores a tombstone, but the table model keeps them, because every loop of the source handles them.
- The codecs shift by whole bytes, which is multiplication and division by powers of 256; OR into clear bits is
  addition.
- Clock readings, chunk boundaries, queue contents, process exits and helper output are arbitrary arguments or steps;
  the helper's JSON is a value as the decoder returns it.
- Locks appear as single steps of a machine, or as methods that cannot be interrupted.
- Strings are sequences of characters, none of them a lone surrogate, which UTF-8 cannot encode.
- Floating-point values are integers or reals.

## Model

| member | source | states |
|---|---|---|
| `Strictness.StrictInvalidation` | docs/strictness.md:13-16 | in every interleaving of purges, prunes and their rollbacks, publications, stale checks, expiry, sweeps, certificates and reclaims, an object reached by a completed hard purge is removed by its next stale check, and one reached by a completed soft purge is removed or reduced by then |
| `Strictness.PurgeReachesObject` | src/vmod_cachetag_purgemap.c:1559-1625 | a run in which a purge marks, is pruned, has its prune undone, completes, and its object goes at the next stale check |
| `StaleLookups.RightUnlessGone` | src/vmod_cachetag_purgemap.c:1714-1775 | with the three lookups of a stale check as separate steps, a check of any object, attached or still pending, refuses it when a hard purge complete as the check began reaches it, if and only if no check is answered for an object that has left the cache since it began |
| `StaleLookups.RemovedObjectPasses` | src/vmod_cachetag_purgemap.c:1738-1752 | a run in which a pending object is attached, condemned and removed between the lookups, and the check lets it through |
| `StaleLookups.RefusesOnlyIfWarranted` | src/vmod_cachetag_purgemap.c:1714-1775 | in every interleaving of the lookups, a check refuses only on the strength of a hard purge issued after the object registered |
| `Strictness.NoRefusalWithoutPurge` | src/vmod_cachetag_purgemap.c:1721-1775 | in every reachable state a stale check or a turn of the sweep removes its object only on the strength of a hard purge issued after the object registered, and reduces it only on that of a soft one, sharing a tag with it unless pruning raised the floor of that mode above the registration; it touches no other object, and with no purge since the registration it leaves the cache as it is |
| `Strictness.NoVerdictWithoutPurge` | src/vmod_cachetag_index.c:3374-3393 | the insert probe condemns a new object, or means to reduce it, only on the strength of such a purge |
| `Strictness.VerdictIsWarranted` | src/vmod_cachetag.c:2457-2556 | applying the verdict of an insert probe later removes or reduces that object and no other, on the strength of such a purge, and never concerns an object with no purge since its registration |
| `Strictness.StaleCheckIsExact` | src/vmod_cachetag_purgemap.c:1559-1625 | in every run that keeps no prune, while no purge is under way, a stale check removes its object if and only if a hard purge since its registration shares a tag with it, and otherwise leaves it reduced if and only if it was or a soft one does |
| `Strictness.UndoneAsIfNever` | src/vmod_cachetag_purgemap.c:455-483 | a prune that is undone leaves the map as it was before it, whatever has happened in between |
| `Strictness.RegisteredWhenRead` | src/vmod_cachetag.c:1385-1420 | an object counts as registered after exactly the purges begun when its publication read the sequence |
| `Strictness.ReclaimIsThorough` | src/vmod_cachetag_purgemap.c:485-606 | when marks are reclaimed none is left that was made before the certificate began, and every newer one is as it was |
| `Strictness.RunKeepsInv` | src/vmod_cachetag_purgemap.c:1607-1621 | every step, in any reachable or consistent state, keeps the bookkeeping that the law rests on: what each completed purge has marked, which objects and publications are settled, and what may be reclaimed |
| `Strictness.CertificateKeepsGateDiscipline` | src/vmod_cachetag_purgemap.c:558-606 | every certificate flips a publication gate whose previous flip has been drained, as the gate demands of its writer |
| `Strictness.MemoIsCurrent` | src/vmod_cachetag.c:1845-1890 | a remembered answer that let an object through is still right while the completion token has not moved: no hard purge completed by then reaches the object, and a soft one that does has already reduced it |
| `PurgeHistory.PruneKeepsStale` | src/vmod_cachetag_purgemap.c:955-971 | promoting old marks to the floors hides no invalidation |
| `PurgeHistory.PruneAddsStale` | src/vmod_cachetag_purgemap.c:955-971 | an object is newly stale after a prune exactly when a removed mark is newer than it |
| `PurgeHistory.PruneIsExactAboveCutoff` | src/vmod_cachetag_purgemap.c:955-971 | objects registered at or after the cutoff are judged as before |
| `PurgeHistory.ReclaimProbe` | src/vmod_cachetag_purgemap.c:485-545 | after a reclaim every object is judged as before, as if it had registered no earlier than the cutoff |
| `PurgeHistory.UpsertAllNewer` | src/vmod_cachetag_purgemap.c:1696-1698 | marking all folds of a purge makes stale exactly the older objects that share one of them, whatever the order of marking |
| `PurgeHistory.PurgeRepresents` | src/vmod_cachetag_purgemap.c:1607-1611 | a completed purge extends what the map answers for by exactly that purge |
| `PurgeHistory.PruneRepresents` | src/vmod_cachetag_purgemap.c:894-995 | a prune gives up exactness only for objects registered before its cutoff, and never becomes milder |
| `PurgeHistory.ReclaimRepresents` | src/vmod_cachetag_purgemap.c:501-554 | a reclaim stops answering only for objects registered before its cutoff |
| `PurgeTable.Table.Walk` | src/vmod_cachetag_purgemap.c:765-791 | linear probing from the home slot finds the fold exactly when the table means to hold it, and otherwise ends at an empty slot whose walk holds no such fold |
| `PurgeTable.Table.ProbeOne` | src/vmod_cachetag_purgemap.c:1141-1166 | the probe of one fold answers what the table means |
| `PurgeTable.Table.InsertExisting` | src/vmod_cachetag_purgemap.c:309-327 | an entry is added in a free slot it can be found from |
| `PurgeTable.Table.ApplyUpsert` | src/vmod_cachetag_purgemap.c:752-806 | the table afterwards means the raised or added mark and nothing else; tombstones on the way are reused, and both counters are told |
| `PurgeTable.PlaceNew` | src/vmod_cachetag_purgemap.c:787-802 | filling a free slot on its own walk keeps every other fold reachable and changes the meaning by that fold alone |
| `PurgeTable.EmptyMeansAbsent` | src/vmod_cachetag_purgemap.c:1152-1158 | a walk that meets an empty slot has passed every place the fold could be |
| `PurgeTable.ContentsSize` | src/vmod_cachetag_purgemap.c:925-935 | there are as many live slots as entries meant |
| `Select.Kth` | src/vmod_cachetag_purgemap.c:861-891 | the in-place selection returns the element of the asked rank: no fewer are at most it and the rest are no smaller, and the array is a permutation of what it was |
| `Select.Partition` | src/vmod_cachetag_purgemap.c:873-889 | one partition round terminates and separates the range around the pivot |
| `Select.CountOfPermutation` | src/vmod_cachetag_purgemap.c:936-941 | how many values a cutoff covers does not depend on their order |
| `TableCopies.CopyAll` | src/vmod_cachetag_purgemap.c:344-356 | a rebuild keeps the meaning and drops the tombstones |
| `TableCopies.CopySurvivors` | src/vmod_cachetag_purgemap.c:955-971 | a prune keeps exactly the entries newer than the cutoff, and the floors become the greatest of the old floor and the marks removed |
| `TableCopies.CopyReclaimed` | src/vmod_cachetag_purgemap.c:485-530 | a reclaim keeps exactly the marks above the cutoff and the entries that have one |
| `TableCopies.CutoffFor` | src/vmod_cachetag_purgemap.c:925-947 | the cutoff is the least one that removes at least as many entries as needed, and the number it removes is exact |
| `TableCopies.SlotsFor` | src/vmod_cachetag_purgemap.c:949-951 | the table size is the least doubling that keeps the load limit |
| `PurgeMap.Map.NeedsSameSizeRebuild` | src/vmod_cachetag_purgemap.c:149-163 | when it says no, one more entry fits with an empty slot to spare |
| `PurgeMap.Map.PrepareUpsert` | src/vmod_cachetag_purgemap.c:721-748 | makes room for one fold within the load limit without changing what the map means, or fails only for want of memory |
| `PurgeMap.Map.PrepareBatch` | src/vmod_cachetag_purgemap.c:822-848 | makes room for a whole batch, so that marking it needs no allocation |
| `PurgeMap.Map.MarkFolds` | src/vmod_cachetag_purgemap.c:1688-1698 | marks a batch in place, without failing, into the map of the batch |
| `PurgeMap.Map.PurgeKey` | src/vmod_cachetag_purgemap.c:1559-1625 | a purge is refused and changes nothing the map answers, or accepted: then the map is the old one with the fold marked, and, only if that is above the entry limit and can be pruned durably, with everything up to the least sufficient cutoff promoted |
| `PurgeMap.Map.PurgeBatch` | src/vmod_cachetag_purgemap.c:1629-1711 | the same for a batch, all of it under one sequence |
| `PurgeMap.OthersJudgedAsBefore` | src/vmod_cachetag_purgemap.c:896-1003 | after an accepted purge an object that shares no fold with it, or registered after it, is judged as before, unless the map was above its limit and the object is older than what was promoted |
| `PurgeMap.PurgeJudges` | src/vmod_cachetag_purgemap.c:896-1003 | what else is judged stale after an accepted purge: what the purge asks for, and above the limit what a newer promoted mark asks for |
| `PurgeMap.Map.Prune` | src/vmod_cachetag_purgemap.c:894-995 | above the limit, exactly the marks up to the least sufficient cutoff become floors and at most three quarters of the limit stay; otherwise nothing changes |
| `PurgeMap.Map.PruneCheckpoint` | src/vmod_cachetag_purgemap.c:1472-1501 | a prune the checkpoint does not cover is undone completely |
| `PurgeMap.Map.SwapTable` | src/vmod_cachetag_purgemap.c:456-481 | publishing a table with its counters and floors, for a prune and for its rollback |
| `PurgeMap.Map.ReclaimUpTo` | src/vmod_cachetag_purgemap.c:501-554 | drops the marks up to the cutoff, or changes nothing for want of memory |
| `PurgeMap.Map.ProbeObject` | src/vmod_cachetag_purgemap.c:1169-1204 | the probe gives the verdict of the purges issued after registration for every object the map answers for exactly, and never a milder one for older objects |
| `PurgeMap.MarksAreBounded` | src/vmod_cachetag_purgemap.c:1592-1611 | no mark and no floor exceeds the number of purges |
| `PurgeMap.CutoffIsAMark` | src/vmod_cachetag_purgemap.c:936 | the prune cutoff never exceeds the newest mark |
| `ProbeRace.SoundUnlessFloorLags` | src/vmod_cachetag_purgemap.c:1179-1194 | with the stores and loads of a prune, its rollback, a reclaim and a probe as separate steps, a probe never misses a purge completed before it began if and only if no probe answers while the stored floor is below the one belonging to the table or count it has read, neither inside that prune nor after its rollback |
| `ProbeRace.LagsInPruneOrAfterRollback` | src/vmod_cachetag_purgemap.c:467-472 | in every run the floor is below the one belonging to a table only inside the prune that stored the table, or after a rollback has taken the table back |
| `ProbeRace.RollbackMisses` | src/vmod_cachetag_purgemap.c:455-483 | an interleaving in which a probe that begins after the last store of a prune misses a completed purge, because the prune is rolled back under it |
| `ProbeRace.OverlapMisses` | src/vmod_cachetag_purgemap.c:976-983 | an interleaving in which a completed purge is missed inside a prune |
| `ProbeRace.StaleOnlyAfterPurge` | src/vmod_cachetag_purgemap.c:1179-1202 | whatever a probe overlaps with, it answers stale only if a purge has marked a fold since the object registered, and one of its own folds when the floor it loads is not above the registration |
| `EpochGate.AtomicGate.Acquire` | src/vmod_cachetag_index_private.h:39-48 | uninterrupted, an acquire pins the current slot and counts it once |
| `EpochGate.CountsAreExact` | src/vmod_cachetag_index_private.h:34-55 | in every interleaving each slot counts exactly the readers that have counted themselves in it |
| `EpochGate.DrainWaitsForHolders` | src/vmod_cachetag_purgemap.c:384-386 | a drain waits for the readers counted in the retired slot and for nothing else |
| `EpochGate.GracePeriod` | src/vmod_cachetag_index_private.h:27-55 | when a drain after a flip sees zero, no reader that was stable before that flip still holds its pin |
| `EpochGate.DelayedReader` | src/vmod_cachetag_index_private.h:44-46 | a reader delayed between its three operations ends up stable if and only if an even number of flips passed it, and then it is pinned in the epoch of the re-check |
| `EpochGate.GateRefinesPinSet` | src/vmod_cachetag_index_private.h:27-55 | the gate refines a plain set of pinned epochs in which a drain waits for every older pin |
| `TableRetirement.RunKeepsInv` | src/vmod_cachetag_purgemap.c:686-716 | in runs whose rollbacks find the retired slot empty, no reader ever holds a freed table, in any interleaving of readers with replace, flip, roll back, drain and free |
| `TableRetirement.SafeUnlessRolledBackUndrained` | src/vmod_cachetag_purgemap.c:374-391 | table retirement is safe in every run if and only if no replacement is rolled back while a reader is left in the slot it retired |
| `TableRetirement.RollbackFreesHeldTable` | src/vmod_cachetag_purgemap.c:456-481 | a run in which a rollback frees a table a reader still holds |
| `TableRetirement.NothingLeaks` | src/vmod_cachetag_purgemap.c:374-391 | in every run, whenever the writer is idle, every table but the current one has been freed |
| `SweepVector.ObjectIndex.Attach` | src/vmod_cachetag_index.c:3318-3352 | a new object is added where a running sweep has passed, and a known one is refused |
| `SweepVector.ObjectIndex.RemoveSlot` | src/vmod_cachetag_index.c:2920-2998 | removing any slot, during a sweep or not, removes exactly that object from the index and from what is yet to be scanned, and repairs the slot map |
| `SweepVector.TwoMoves` | src/vmod_cachetag_index.c:2956-2992 | the two moves below the scan boundary amount to exchanging the slot with the boundary and removing there |
| `SweepVector.ObjectIndex.Invalidate` | src/vmod_cachetag_index.c:3408-3460 | removes the object if it is indexed and nothing else |
| `SweepVector.ObjectIndex.ScanOne` | src/vmod_cachetag_index.c:3630-3673 | each turn judges one object that was yet to be scanned, by the probe of that turn or hard for want of folds, and removes it exactly when judged hard |
| `SweepVector.ObjectIndex.Sweep` | src/vmod_cachetag_index.c:3567-3740 | whatever requests do between batches, however probes change and wherever it is stopped, a sweep judges only objects there at its start, each at most once; unless it is stopped or the object departs each has its turn; what is left was judged not hard and what it removed was judged hard; and its counts are those of its turns |
| `SweepVector.SweepIsThorough` | src/vmod_cachetag_index.c:3610-3690 | if judgements only get harder, a sweep that was not stopped leaves nothing that would have been judged hard as it began |
| `SweepVector.TurnsAreFew` | src/vmod_cachetag_index.c:3640-3672 | killed, reduced and fresh objects together are those scanned, and no more than there were |
| `LittleEndian.DecodeOfEncode` | src/cachetag_util.h:23-76 | decoding an encoded number gives every number of 16, 32 or 64 bits back |
| `LittleEndian.EncodeOfDecode` | src/cachetag_util.h:23-76 | encoding a decoded number restores every byte |
| `LittleEndian.Enc` | src/cachetag_util.h:38-45 | the encoder loop writes its bytes and no others |
| `LittleEndian.Dec` | src/cachetag_util.h:47-56 | the decoder loop returns the value of its bytes |
| `LittleEndian.Enc16` | src/cachetag_util.h:23-29 | both bytes are written and no others |
| `KeyPurgeRecord.Encode` | src/vmod_cachetag_index.c:4849-4855 | the 32 bytes of a purge record |
| `KeyPurgeRecord.RecordRoundTrip` | src/vmod_cachetag_index.c:4911-4932 | a record survives encoding and decoding exactly when its sequence is neither zero nor the maximum |
| `KeyPurgeRecord.RecordOfPurge` | src/vmod_cachetag_purgemap.c:1586-1602 | the record of an accepted purge is decoded again except for the last purge of all, whose sequence is the maximum |
| `KeyPurgeRecord.PayloadRoundTrip` | src/vmod_cachetag_index.c:4911-4932 | an accepted payload is what its record encodes to if and only if its five reserved bytes are zero |
| `KeyPurgeRecord.ReservedIsIgnored` | src/vmod_cachetag_index.c:4911-4932 | a payload with a reserved byte set that is accepted |
| `KeyPurgeRecord.EncodeBatch` | src/vmod_cachetag_index.c:4886-4904 | the bytes of a batch record |
| `KeyPurgeRecord.DecodeBatch` | src/vmod_cachetag_index.c:4946-4993 | whatever its reserved bytes, a batch payload is accepted exactly when it is of version 1, names a mode, is as long as its count of two keys or more says, repeats no key and has a usable sequence; it gives back its mode, its sequence and its keys, sorted |
| `KeyPurgeRecord.BatchRoundTrip` | src/vmod_cachetag_index.c:4862-4904 | an encoded batch is accepted exactly when the log can carry it, and says what was encoded |
| `KeyPurgeRecord.BatchPayloadRoundTrip` | src/vmod_cachetag_index.c:4946-4993 | an accepted batch payload is what its batch encodes to if and only if its five reserved bytes are zero |
| `KeyPurgeRecord.SortDistinct` | src/vmod_cachetag_index.c:4983-4989 | comparing sorted neighbours finds a repeated key exactly when there is one |
| `OriginEpoch.LeasesCarryTheCurrentEpoch` | benchmarks/http_workload_driver.go:110-138 | in every run of lock, load, store and unlock steps, every lease in force carries the current epoch |
| `OriginEpoch.EpochsDoNotOverlap` | benchmarks/http_workload_driver.go:110-138 | a request of one epoch has ended before the epoch moves and before a request of a later epoch begins, and epochs are handed out in order |
| `OriginEpoch.EpochCountsAdvances` | benchmarks/http_workload_driver.go:125-129 | the epoch is one more than the number of advances |
| `OriginEpoch.Controller.Advance` | benchmarks/http_workload_driver.go:125-129 | an advance happens only when no request holds a lease, and is the lock, store and unlock steps in a row |
| `UniformTags.TagsFor` | benchmarks/http_workload_driver.go:1282-1285 | the generated tag list |
| `UniformTags.HasKeyIsCarries` | benchmarks/http_workload_driver.go:1428-1444 | the closed-form membership test holds exactly for the objects whose generated list holds the key, on both sides of tags per object reaching the universe |
| `UniformTags.ExpectedCountIsExact` | benchmarks/http_workload_driver.go:1413-1426 | the closed-form count is the number of objects whose generated list holds the key |
| `UniformTags.SampleCarries` | benchmarks/http_workload_driver.go:1446-1464 | every sample lands on a carrier; the not-found result and the clamp never apply |
| `UniformTags.SampleIsSpread` | benchmarks/http_workload_driver.go:1446-1464 | with b carriers before sample n of s, b * s <= n * carriers < (b + 1) * s |
| `UniformTags.SampledObjects` | benchmarks/http_workload_driver.go:2153-2173 | sampling gives exactly the smaller of what is asked and what there is, of distinct objects that carry the key, spread evenly: before sample n lies the nth share of all carriers, rounded down |
| `BulkPurge.Prepare` | benchmarks/http_workload_driver.go:3740-3766 | the plan names exactly min(requests times keys, buckets) keys; each request expects the objects of the buckets it is the first to name; and the total is the number of objects in the named buckets, which is every object once the product reaches the buckets |
| `BulkPurge.ExpectedCountIsExact` | benchmarks/http_workload_driver.go:1504-1512 | the bucket count is the number of objects in the bucket |
| `BulkPurge.TagsFor` | benchmarks/http_workload_driver.go:1382-1391 | the tags of an object, of which its bucket tag is one, and no other bucket tag, exactly when it has at least three |
| `LatencyRecorder.Recorder.Add` | benchmarks/http_workload_driver.go:231-243 | an observation is kept in the next slot or in the one picked, and always counted; what is kept is the reservoir of everything added |
| `LatencyRecorder.Recorder.MergeRecorder` | benchmarks/http_workload_driver.go:251-257 | a merge adds exactly what the other recorder observed, and adds exactly what it retained |
| `LatencyRecorder.Recorder.Emit` | benchmarks/summarize_results.py:1530-1539 | observed is retained plus dropped, so the emitted counts pass the consistency test whenever there is a slot at all |
| `LatencyRecorder.Recorder.RetainedAreAdded` | benchmarks/http_workload_driver.go:289-304 | the retained samples are values added, each from an add of its own |
| `LatencyRecorder.MergeAll` | benchmarks/http_workload_driver.go:1922-1929 | a phase that merges its workers has observed exactly what they have, and is given exactly what they retained |
| `LatencyRecorder.WorkerLimitCovers` | benchmarks/http_workload_driver.go:211-219 | the worker limits together cover the phase limit and are the least equal limits that do |
| `LatencyRecorder.SubsequenceIsContained` | benchmarks/http_workload_driver.go:289-304 | values picked at different positions are contained with their multiplicity |
| `RecorderRace.Conserved` | benchmarks/http_workload_driver.go:231-243 | with the increment and the store of every add as separate steps, adds begun are slots retained and adds dropped, in every interleaving |
| `RecorderRace.FilledIff` | benchmarks/http_workload_driver.go:289-304 | a snapshot reads only slots that have been stored if and only if none of them still waits for its first store |
| `RecorderRace.SnapshotIsAdded` | benchmarks/http_workload_driver.go:289-304 | and then, as once every add begun has stored, each value read is that of an add of its own |
| `RecorderRace.WholeAddIsPlaced` | benchmarks/http_workload_driver.go:231-243 | an add that nothing interleaves with changes the snapshot as the recorder specifies |
| `Pacer.Clocked.Wait` | benchmarks/http_workload_driver.go:4201-4227 | reserving a slot extends the run of grants by one, with the slot, its due time and skips, and the lag of waking late after the later of now and the due time |
| `Pacer.SlotsIncrease` | benchmarks/http_workload_driver.go:4201-4227 | no slot is granted twice, whatever the clock reads |
| `Pacer.SlotsAreConserved` | benchmarks/http_workload_driver.go:4201-4227 | skipped and granted slots together are the slots up to the next one |
| `Pacer.StartedIsBounded` | benchmarks/http_workload_driver.go:4205-4219 | no more operations have started by a time than slots are due by it |
| `Pacer.NeverBurstsIffDivides` | benchmarks/http_workload_driver.go:4205-4215 | at most floor(T * rate) + 1 operations start by T in every run if and only if the rate divides a second |
| `Pacer.SkipsOnlyMissedIffDivides` | benchmarks/http_workload_driver.go:4205-4215 | only slots whose successor is due are skipped, for all readings, if and only if the rate divides a second |
| `Pacer.NeverReplays` | benchmarks/http_workload_driver.go:4208-4214 | a granted slot is never behind the true rate |
| `Pacer.Stats.Accepted` | benchmarks/summarize_results.py:1578-1585 | the accounting test passes exactly when something was offered and every offer has completed |
| `Pacer.TallyOne` | benchmarks/http_workload_driver.go:3937-3958 | every report changes the counters so that each still counts what it is named for: slots, completions, skips, lag in total and at most, late starts and failures |
| `Pacer.ScheduledIsNextSlot` | benchmarks/http_workload_driver.go:3937-3951 | offering every grant schedules exactly the slots up to the next one |
| `Percentile.TheyAgree` | benchmarks/http_workload_driver.go:314-326 | driver and summarizer compute the same percentile of every list |
| `Percentile.IsBounded` | benchmarks/summarize_results.py:492-499 | the percentile lies between the least and the greatest sample |
| `Percentile.IsMonotone` | benchmarks/summarize_results.py:492-499 | the percentile grows with the share |
| `Percentile.IsInterpolation` | benchmarks/http_workload_driver.go:314-326 | at a rank the percentile is the sample of that rank, and between two ranks it moves evenly from one to the other |
| `ProcessTree.Descendants` | benchmarks/run_with_controlled_perf.py:62-71 | the closure loop ends with the least set that holds the root and every child of a member, in any snapshot and any order |
| `ProcessTree.Lineage` | benchmarks/run_with_controlled_perf.py:94-104 | the walk up ends, in any snapshot |
| `ProcessTree.WalkIsSimple` | benchmarks/run_with_controlled_perf.py:94-104 | a lineage follows parent links and repeats nothing |
| `ProcessTree.WalkAgrees` | benchmarks/run_with_controlled_perf.py:62-104 | the root is on the lineage of exactly its descendants |
| `ProcessTree.AgreeIffPositiveRoot` | benchmarks/run_with_controlled_perf.py:62-104 | the two agree on every process if and only if the root is positive |
| `LineReader.Reader.Read` | benchmarks/run_with_controlled_perf.py:129-142 | a line depends on the stream and not on how it is cut, and a timeout loses nothing |
| `LineReader.LinesOfWritten` | benchmarks/run_with_controlled_perf.py:129-146 | what is written line by line is read line by line |
| `PhaseControl.ParseOfRender` | benchmarks/run_with_controlled_perf.py:311-318 | a message survives being written and read |
| `PhaseControl.CompletesExactlyOnTheLanguage` | benchmarks/run_with_controlled_perf.py:311-355 | the coordinator completes exactly on READY load, any number of WORK_DONE load, STOP load, READY warm, WORK_DONE warm |
| `PhaseControl.Coordinate` | benchmarks/run_with_controlled_perf.py:311-356 | the loop completes exactly when a first part of its input is in the language; it takes as many messages as can be taken, answers each in order with the reply its sender waits for, and carries the counters exactly that far through enable load, disable load, enable warm, disable warm |
| `PhaseControl.Turned` | benchmarks/run_with_controlled_perf.py:313-355 | the loop body is one turn of the specification |
| `PhaseHandshake.WorkIsCounted` | benchmarks/http_workload_driver.go:1246-1264 | in every run, failed ones included, measured work is counted by its own counter and no other if and only if no read of the coordinator has timed out while a counter was enabled; otherwise by none |
| `PhaseHandshake.TimeoutHarmsIffCounting` | benchmarks/run_with_controlled_perf.py:340-350 | a read timeout can be followed by uncounted work exactly when a counter is enabled as it happens |
| `PhaseHandshake.RepliesMatch` | benchmarks/phase_control_client.py:11-33 | no client is given a reply meant for another request |
| `PhaseHandshake.FinishedMeansComplete` | benchmarks/http_workload_driver.go:1235-1243 | when the last client has its reply the coordinator has completed and nothing is enabled |
| `PhaseHandshake.FailureHasACause` | benchmarks/run_with_controlled_perf.py:311-352 | the coordinator has failed exactly when a read has timed out or perf has disobeyed a message that asks something of it |
| `PhaseHandshake.NeverStuck` | benchmarks/run_with_controlled_perf.py:311-355 | until it fails somebody can move |
| `PhaseHandshake.WorkMayOutlastTheCoordinator` | benchmarks/run_with_controlled_perf.py:340-350 | a run in which work longer than the read timeout goes on with no counter enabled, before the process is terminated |
| `PhaseSampler.Sampler.ReadMarkers` | benchmarks/run_with_metrics.py:1327-1341 | the marker loop learns, for each phase, what its markers say |
| `PhaseSampler.Sampler.Sample` | benchmarks/run_with_metrics.py:889-978 | a sample adds to every phase its overlap with the window and, for each tracked process, the same share of the ticks, and keeps the greatest percentage of a window in which the phase ran |
| `PhaseSampler.PeakIsGreatest` | benchmarks/run_with_metrics.py:969-985 | the peak percentage is attained in a window in which the phase ran, and none such is greater |
| `PhaseIntervals.KnownIsEnough` | benchmarks/run_with_metrics.py:960-966 | markers visible up to a sample are enough to measure its window |
| `PhaseIntervals.OverlapIsMeasure` | benchmarks/run_with_metrics.py:961-963 | the clipped sums count the instants the phase ran |
| `PhaseTotals.Balance` | benchmarks/run_with_metrics.py:953-978 | over any run, attributed and lost time make up the time of the phase between its ends and what was counted again |
| `PhaseTotals.TelescopesIff` | benchmarks/run_with_metrics.py:953-978 | attribution equals the phase length inside the run for every history of the phase if and only if every instant is in as many windows without processor data as the clock has stepped back over it |
| `PhaseTotals.TelescopesUnlessBackIff` | benchmarks/run_with_metrics.py:953-978 | with processor data at every sample, it does so for one history if and only if the phase runs at no instant the clock has stepped back over |
| `PhaseTotals.TelescopesOnSteadyRuns` | benchmarks/run_with_metrics.py:953-978 | it does so when no sample goes back and every sample has processor data |
| `PhaseTotals.ClockStepsBack` | benchmarks/run_with_metrics.py:944 | a run in which the clock steps back and time is counted twice |
| `PhaseTotals.DisjointShareTicks` | benchmarks/run_with_metrics.py:968-974 | disjoint phases are never attributed more ticks of a process in total than were sampled |
| `PhaseTotals.CoveringShareAllTicks` | benchmarks/run_with_metrics.py:953-985 | disjoint phases that together cover every window that counts are attributed exactly the ticks of a process sampled in those windows |
| `DetailCollector.AtMostOneHelper` | benchmarks/run_with_metrics.py:571-741 | with the two parts of every reaping pass as separate steps of any thread, in every reachable state at most one helper process is alive if and only if no pass releases a request that has been accepted again since the pass listed it |
| `DetailCollector.QueueIsNeverFull` | benchmarks/run_with_metrics.py:578-586 | queued requests are outstanding and the queue-full branch is never taken, if and only if no release is late in that sense |
| `DetailCollector.CountersBalance` | benchmarks/run_with_metrics.py:622-741 | attempts are successes, timeouts, errors, mismatches, cancellations and the at most one request not yet classified, if and only if no release is late |
| `DetailCollector.CountersCount` | benchmarks/run_with_metrics.py:571-741 | in every state each counter rises by one with the steps it is named for and with no other; successes with a report whose status is ok, whose observed start ticks are those asked for and whose pid and expected ticks are absent or those asked for, and mismatches with one where a number differs or the status says so |
| `HelperReport.JudgedBy` | benchmarks/run_with_metrics.py:721-741 | the verdict on any output that can be read, over the members it brings, the last of each name |
| `DetailCollector.LateIsVisible` | benchmarks/run_with_metrics.py:635-647 | a release is late exactly when its request is outstanding and the abandoned helper the pass listed is no longer recorded for it |
| `DetailCollector.QueuedNotOutstanding` | benchmarks/run_with_metrics.py:635-647 | a run in which passes of two threads overlap and a queued request is released |
| `DetailCollector.AttemptDropped` | benchmarks/run_with_metrics.py:578-586 | its continuation in which the queue is found full and an attempt is never classified |
| `DetailCollector.TwoHelpers` | benchmarks/run_with_metrics.py:649-741 | its continuation in which two helpers are alive at once |
| `CollectorEnd.OverIff` | benchmarks/run_with_metrics.py:622-647 | in a run not stopped and without a late release, no later submission is ever accepted if and only if the worker has taken output that raises or a report that calls itself abandoned, and no pass in progress has listed the request left outstanding |
| `CollectorEnd.LostIff` | benchmarks/run_with_metrics.py:629-633 | without a late release, a request is outstanding with nobody to answer for it exactly when the worker has taken such output |
| `CollectorEnd.EndIsFinal` | benchmarks/run_with_metrics.py:571-577 | after either kind of end nothing is attempted or classified any more, whatever happens |
| `CollectorEnd.TwoEnds` | benchmarks/run_with_metrics.py:713-741 | runs in which null ends collection by an exception, and a report that calls itself abandoned ends it without one |
| `CollectorEnd.CrashedIff` | benchmarks/run_with_metrics.py:668-721 | the worker has crashed if and only if it has taken helper output that raises: text that cannot be decoded, or JSON that is no object, no list of pairs and no empty string |
| `CollectorEnd.ListsGoOn` | benchmarks/run_with_metrics.py:713-735 | runs in which an empty list counts as an identity mismatch and a list of pairs as a success, after which submissions are accepted |
| `FixtureCodec.CanonicalizeTags` | benchmarks/fixture_loader.py:38-52 | accepts exactly the non-empty lists of distinct tokens, in their own order, and otherwise says what is wrong with the first item that spoils the list |
| `FixtureCodec.OneTagsVerdict` | benchmarks/fixture_loader.py:38-52 | there is only one such answer |
| `FixtureCodec.ParseRecord` | benchmarks/fixture_loader.py:55-61 | the one thing to be said of a record: its fields, then its id, then its tags |
| `FixtureCodec.AcceptedIff` | benchmarks/fixture_loader.py:55-61 | accepted are exactly the objects with a token id and a list of distinct tokens |
| `FixtureCodec.Load` | benchmarks/fixture_loader.py:84-100 | accepts exactly the files with a record on every line, at least one, and no id twice, and otherwise says what is wrong with the first unusable line |
| `FixtureCodec.Serialize` | benchmarks/fixture_loader.py:64-71 | the bytes a fixture feeds the hash |
| `FixtureCodec.RoundTrip` | benchmarks/fixture_loader.py:64-71 | a decoder inverts the stream of every list of accepted records |
| `FixtureCodec.StreamsAreUnique` | benchmarks/fixture_loader.py:38-71 | accepted fixtures with the same stream of characters are the same |
| `FixtureCodec.BytesAreUnique` | benchmarks/fixture_loader.py:38-71 | accepted fixtures that feed the hash the same bytes are the same |
| `Utf8.BytesAreUnique` | benchmarks/fixture_loader.py:67-69 | strings with the same UTF-8 encoding are the same |
| `FixtureCodec.UncheckedStreamsCollide` | benchmarks/fixture_loader.py:44-46 | without the check two different fixtures have one stream |
| `FixtureGenerator.RecordsFor` | benchmarks/generate_benchmark_fixture.py:36-57 | every scenario generates one record per object, with distinct ids, that the loader accepts, and whose tags are those whose fan-outs follow |
| `FixtureGenerator.ScenarioTagsAreTags` | benchmarks/generate_benchmark_fixture.py:22-57 | the tags of every object of every scenario are distinct tokens |
| `FixtureGenerator.CyclicFanout` | benchmarks/generate_benchmark_fixture.py:45-56 | every cyclic tag is on exactly min(objects, tags per object) objects |
| `FixtureGenerator.CyclicUniverse` | benchmarks/generate_benchmark_fixture.py:45-56 | there are exactly max(objects, tags per object) cyclic tags |
| `FixtureFanout.UniqueRowsAreDisjoint` | benchmarks/generate_benchmark_fixture.py:22-42 | in the mostly-unique scenario, for every length class, no two rows have a tag in common |
| `FixtureFanout.UniqueFanout` | benchmarks/generate_benchmark_fixture.py:22-42 | so that every tag there is on exactly one object |
| `FixtureFanout.UniqueUniverse` | benchmarks/generate_benchmark_fixture.py:22-42 | and there are exactly objects times tags-per-object tags |
| `FixtureFanout.SharedFanout` | benchmarks/generate_benchmark_fixture.py:43-47 | in the mostly-shared scenario all rows have one list, and every tag is on every object |
| `FixtureFanout.SharedTagCount` | benchmarks/generate_benchmark_fixture.py:43-47 | of which there are as many as each object has |
| `FixtureFanout.HotTagIsEverywhere` | benchmarks/generate_benchmark_fixture.py:50-51 | in the hot-set scenario the hot tag is on every object |
| `FixtureFanout.HotTailFanout` | benchmarks/generate_benchmark_fixture.py:38-51 | and each tail tag on exactly as many objects as its closed form says |
| `FixtureFanout.HotTailIsEven` | benchmarks/generate_benchmark_fixture.py:38-51 | over whole rounds of the tail universe every tail tag has the same fan-out |
| `FixtureFanout.CyclicRowsFanout` | benchmarks/generate_benchmark_fixture.py:48-56 | in the other scenarios every tag is on exactly min(objects, tags per object) objects |
| `FixtureFanout.CyclicRowsUniverse` | benchmarks/generate_benchmark_fixture.py:48-56 | of max(objects, tags per object) tags |
| `FixtureFanout.CounterIsFanout` | benchmarks/fixture_loader.py:105-109 | the loader counts for each tag the records that hold it |
| `FixtureFanout.EvenFanoutHistogram` | benchmarks/fixture_loader.py:109-113 | where every tag has one fan-out the fan-out histogram has one key |
| `Numerals.PaddedDiffer` | benchmarks/generate_benchmark_fixture.py:22-33 | padded numerals of different numbers differ |
| `FixtureMetrics.GroupedSum` | benchmarks/fixture_loader.py:103-128 | summing a counter over its keys is summing over the occurrences, in any key order |
| `FixtureMetrics.TagsPerObjectBalances` | benchmarks/fixture_loader.py:110-124 | the tags-per-object histogram accounts for every relationship and every object |
| `FixtureMetrics.FanoutBalances` | benchmarks/fixture_loader.py:105-125 | the fan-out histogram accounts for every relationship and every tag |
| `FixtureMetrics.SetReuseBalances` | benchmarks/fixture_loader.py:111-127 | the set-reuse histogram accounts for every object and every exact tag set |

## Left out

- Crash recovery: checkpoint replay and replay of purge records into the purge map, the write-ahead log's file format, and
  everything the log does on disk.
- The publication handoff of stored (Fellow) objects and their tag attributes; the protocol covers objects held in memory,
  and certificates are taken only for namespaces without a log.
- Tag interning, the incremental resizing of the object array and the side map, and low-water shrinking; capacity is
  reserved before an attach.
- Hashing of tags and side-map buckets: the side map is a map, and folds stand for tags.
- A sweep's timings and byte counts; in the protocol a sweep may be aborted at any point.
- The machine's atomics weaker than sequentially consistent: only the loads and stores of `ProbeRace` are taken apart.
- PurgeMap.Map.PurgeKey: marks before its prune are one step here; the separate steps are in `Strictness`.
- PhaseSampler.Sampler.Sample: processor seconds, which are attributed as ticks are, and the count of samples.
- Strictness.StrictInvalidation: a probe is one step against a prune and its rollback, and a check finds its object;
  `ProbeRace` and `StaleLookups` say when that is right.
- StaleLookups.RightUnlessGone: hard purges only, objects held in memory, and no attach that fails.
- ProbeRace.SoundUnlessFloorLags: one mode at a time; a probe loads the hard and the soft floor, and each is judged alone.
- DetailCollector.CountersCount: `stop` counts a worker that outlasts its join as one more abandoned helper; that count is
  left out.
- PhaseControl.Coordinate: what perf and the identity checks do is one yes or no per message.
- KeyPurgeRecord.DecodeBatch: reads the payload as a sequence and sorts by insertion, since the library sort is not part of
  the repository.
- UniformTags.SampledObjects: for keys of the profile; parsing the key text and the other profiles' closed forms are left out.
- LatencyRecorder.Recorder.Add: the index function is any function of the sequence number, so nothing is said about how
  well it spreads.
- Pacer.Clocked.Wait: the sleep wakes at or after its target; the variant that does not sleep is left out.
- FixtureCodec.Serialize: the hash itself, and reading and writing files.
- HTTP, FIFOs as operating-system objects, subprocesses, VCL and VTC generation, reports and packaging.
