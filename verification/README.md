# blockd verification

A Dafny model of the parts of blockd, a page-granular storage daemon for microVM fleets,
whose correctness is hardest to see from the code: the fault-work scheduler, the
residency cache, the archive data path (block keys, BLX objects, compaction, manifests,
garbage collection), the replica spool and its recovery, the compare-and-swap protocols
for host claims and host sessions, and the two-lane event injector.

`dafny verify dfyconfig.toml` checks the whole project.

## How it is built

- Protocols and event loops are state machines over their atomic steps; theorems about
  them speak of every legal run. Code that updates an object in place is a class whose
  methods are proved against functions on the object's value.
- The fault dispatcher (`FaultSchedule`, `FaultQueueProofs`, `FaultAnswerProofs`,
  `FaultTheorems`, `FaultFairness`, `FaultReuse`, `FaultDispatcher`) keeps a log of what was queued, started, finished,
  answered and signalled; the theorems relate that log to the submissions.
- The cache has three layers: the page map (`CacheModel`), the incremental indexes over it
  (`CacheIndexes`) and the object that maintains both (`ResidencyCache`). `CacheHistory`
  tells what the map holds from the operations alone. Within a kind, generations never
  disagree with the order of touches, so they bound the window and do not change the victim.
- Definitions that several theorems rest on have a second, independent form: reachability
  as paths (`GcReach`), accepted spools by their frames (`SpoolMeaning`), validation and
  resolution on the fields (`ManifestMeaning`, `StateChainMeaning`), the ready ring and the
  lane preference by what happened before (`FaultFairness`, `InjectorOrder`).
- Ordered maps of the source are maps from positions, natural numbers that order and tell
  apart the original keys; `BlockKeys.PositionOrders`, `StateChain.BatchPositionOrders` and
  `Manifests.IdentityPositionOrders` justify the positions.
- CRC-32C, lz4, the remaining decoders, and the validity of page files and journal records
  are function-valued parameters. Of compression only the inverse and the output bound are
  assumed (`Blx.Good`, which `BlxCodec.SomeEnvironmentIsGood` shows can be met); of journal
  records only that decoding inverts encoding (`Recovery.RecordsInvert`).
- `BlxObjects` is stated over any codec whose parts invert; `BlxCodec` shows that the
  format's own parts do.

## Where the code and its promises part

- Batch numbers of the fault dispatcher wrap at 64 bits. A run in which one is taken again
  while in use exists (`FaultReuse.NumbersDoRunOut`) and loses an answer. Exactly such runs
  leave a submission that nobody can answer (`FaultReuse.OnlyReuseOrphans`); up to 2^64
  batch submissions there is none (`FaultTheorems.PossibleRunsAreLegal`).
- `begin_flush` keeps the cache indexes right exactly for pages that are already dirty or
  mid-flush and have a flush count below 255 (`ResidencyCache.Cache.StartFlush`). The count
  wraps as in a release build.
- The unbounded injector's total saturates. With 2^64 pending events its lanes sum to more
  than the total (`Injector.SaturationBreaksTheSum`). The counters are exact exactly as long
  as the events outstanding fit in 64 bits (`Injector.CountsExactlyWhileTheyFit`).
- A collector pass that skipped a root (its body vanished or changed generation between
  LIST and GET) can delete live objects (`Collector.SkippedHeadLosesItsManifest`), and does
  so exactly where a skipped root reaches what it deletes
  (`Collector.StoreCollector.Pass`). Live means reachable in the store as it was listed: a
  root written between LIST and delete is not covered.
- Sealing a commit does not check the limit of a million required artifacts that opening
  enforces (`SpoolWire.OpenSealedCommit`, `SpoolWire.OneTooManySealsAndNeverOpens`), and
  sealing an artifact with a given checksum does not check it
  (`SpoolWire.OpenSealedArtifact`).
- Finishing a batch asserts that object ids do not overflow. `ObjectIdsFit` decides exactly
  that; the recovery archive, which starts 1024 ids below the top, does not ask it first and
  runs out at 1026 chunks (`ArchiveIds.RecoveryIdsRunOut`,
  `ArchiveIds.RecoveryCompactionAsserts`).
- A stored block may decompress to less than a page: opening it checks only the length it
  declares (crates/core/src/blx.rs:630). Compacting such a block fails the page-size
  assertion of `add_data` (`ShortBlocks.ShortBlockStopsCompaction`).
  `BlxBuilder.CompactObjects` asserts exactly when its inputs' entries are not
  `Compactable`.

## Model

| member | source | states |
|---|---|---|
| `FaultTheorems.EveryRunSchedules` | crates/runtime/src/actor_host.rs:982-1023 | In every run, with completions in any order: at most 8 volumes are active, idle workers and active volumes sum to 8, no volume has two items running, a volume is active iff one of its items runs, and the ready ring lists without repeats exactly the non-active volumes with pending work. |
| `FaultTheorems.EveryRunIsFifo` | crates/runtime/src/actor_host.rs:983-1018 | For every volume, the items finished are a prefix of those started, which are a prefix of those admitted, with at most one in between. |
| `FaultTheorems.EveryRunAnswersOnce` | crates/runtime/src/actor_host.rs:1124-1150 | Every submission is answered at most once; it is unanswered only while one of its operations is queued or running; the answer reports failure iff one of its operations failed, and all of them have finished by then. |
| `FaultTheorems.EveryRunSeparatesBarriers` | crates/runtime/src/actor_host.rs:1298-1323 | Barriers are signalled once each in the order taken, and every signal comes after everything admitted before it has finished and been answered and before anything later is admitted. |
| `FaultTheorems.EveryRunCanContinue` | crates/runtime/src/actor_host.rs:1279-1323 | Whenever the loop stops handing out work it can exit, signal, or has an enabled select branch; exit happens only when everything submitted has been answered; every running worker’s completion can be accepted. |
| `FaultFairness.NobodyIsOvertaken` | crates/runtime/src/actor_host.rs:982-1023 | In every run, a volume with i others before it in the ready ring sees at most i operations start before one of its own, however the run goes on. |
| `FaultFairness.EveryRunTakesTurns` | crates/runtime/src/actor_host.rs:982-1023 | In every run the ready ring is the order in which volumes began to wait, read off the log, and every start was that of the volume that had waited longest. |
| `FaultFairness.EveryRunKeepsWorkersBusy` | crates/runtime/src/actor_host.rs:1279-1323 | Whenever the loop does anything but hand out work, all eight workers are busy or every volume with work behind has an operation running. |
| `FaultFairness.AdmitQueuesInOrder` | crates/runtime/src/actor_host.rs:1124-1150 | A request queues one operation for each of its volumes, in the order given. |
| `FaultFairness.ClosedAdmitsNothing` | crates/runtime/src/actor_host.rs:1298-1323 | Once the submission side is closed nothing more is admitted. |
| `FaultTheorems.PossibleRunsAreLegal` | crates/runtime/src/actor_host.rs:1124-1150 | With at most 2^64 batch submissions no batch number is reused while in use, so the theorems above apply to every run. |
| `FaultTheorems.ReusedNumberIsNeverAnswered` | crates/runtime/src/actor_host.rs:1131-1140 | Counter-result: once the wrapping batch number is reused while in use, the submission that held it is never answered. |
| `FaultReuse.NumbersDoRunOut` | crates/runtime/src/actor_host.rs:1124-1150 | And the loop does get there: a run from the start with 2^64 + 1 batch submissions, the first of them still running, after which the first submission is never answered, however the run goes on. |
| `FaultReuse.OnlyReuseOrphans` | crates/runtime/src/actor_host.rs:1124-1150 | A possible run of any length leaves some unanswered submission without anybody who could answer it exactly when it took a batch number still in use. |
| `FaultTheorems.StepKeeps` | crates/runtime/src/actor_host.rs:1152-1323 | Every step of the loop keeps the whole invariant. |
| `FaultQueueProofs.StartKeeps` | crates/runtime/src/actor_host.rs:991-1006 | Starting the next volume keeps ring, active set and pending queues consistent and takes the head of its queue. |
| `FaultQueueProofs.CompleteKeeps` | crates/runtime/src/actor_host.rs:1008-1018 | Completing a volume returns it to the ring exactly when it still has pending work. |
| `FaultAnswerProofs.FinishAnswers` | crates/runtime/src/actor_host.rs:1242-1277 | Finishing an item settles its submission: directly, or through its batch when the last member finishes. |
| `FaultAnswerProofs.CanAlwaysFinish` | crates/runtime/src/actor_host.rs:1242-1277 | The bookkeeping a completion looks up (volume, batch, counter) is always there. |
| `FaultDispatcher.FaultWorkQueue.PushBack` | crates/runtime/src/actor_host.rs:983-990 | The queue object’s push is the specified queue step. |
| `FaultDispatcher.FaultWorkQueue.TakeNext` | crates/runtime/src/actor_host.rs:991-1006 | The queue object’s start is the specified queue step, and refuses exactly when nothing is ready. |
| `FaultDispatcher.FaultWorkQueue.Retire` | crates/runtime/src/actor_host.rs:1008-1018 | The queue object’s completion is the specified queue step, which keeps the ring in the order of waiting (`FaultFairness`). |
| `FaultDispatcher.FaultWorkQueue.Drained` | crates/runtime/src/actor_host.rs:1020-1023 | Idle means no volume is active and none is ready. |
| `FaultDispatcher.FaultWorkDispatcher.AdmitItem` | crates/runtime/src/actor_host.rs:1152-1240 | Admission of a single item, a write-protect batch or a barrier is the specified step. |
| `FaultDispatcher.FaultWorkDispatcher.FinishItem` | crates/runtime/src/actor_host.rs:1242-1277 | The dispatcher’s finish is the specified step. |
| `FaultDispatcher.FaultWorkDispatcher.Turn` | crates/runtime/src/actor_host.rs:1279-1323 | One turn of the loop performs an offered step, or changes nothing and waits or leaves for the stated reason. |
| `FaultDispatcher.FaultWorkDispatcher.EventLoop` | crates/runtime/src/actor_host.rs:1279-1323 | The event loop, for any script of arrivals, performs only legal steps and stops only at an exit or at a select that cannot take the next arrival. |
| `CacheModel.EveryRunStaysInBounds` | crates/core/src/cache.rs:129-133 | Over every allowed run resident + base + reserved slots never exceed capacity, the generation span stays in 1..=4, and every page’s generation lies between its class’s minimum and the maximum. |
| `CacheModel.AllowedRunsAreLegal` | crates/core/src/cache.rs:218-386 | Calls that respect the caller contract never leave the invariant, so no lookup or subtraction fails. |
| `CacheModel.ReserveIsRight` | crates/core/src/cache.rs:255-266 | A slot is refused exactly when the cache is full and nothing is evictable; the victim is never dirty or mid-flush and never a memory page while a disk page is evictable. |
| `CacheModel.AgingPrefersTheUntouched` | crates/core/src/cache.rs:218-248 | Right after an aging pass every unharvested evictable page ranks before any harvested one of its class. |
| `CacheModel.PromoteAllOrders` | crates/core/src/cache.rs:236-247 | Harvest promotion keeps the relative order it was given and puts promoted pages last. |
| `CacheModel.DropOneMore` | crates/core/src/cache.rs:372-386 | Dropping pages one by one in any order equals dropping them at once. |
| `CacheHistory.EveryRunRemembers` | crates/core/src/cache.rs:271-350 | From the operations alone, over every allowed run: a resident page is of the kind it was last filled as, dirty exactly if filled or marked dirty with no flush begun after that, and counts exactly the flushes begun and not ended since. |
| `CacheHistory.EveryReservationIsRight` | crates/core/src/cache.rs:255-266 | From the operations alone, over every allowed run: a reservation takes a free slot; on a full cache it evicts the durable page that goes first, disk before memory and of one kind the one touched longest ago; it is refused exactly when no page is durable. |
| `CacheHistory.SlotsBalance` | crates/core/src/cache.rs:271-382 | What every other operation does to reserved slots, base pages and residency. |
| `CacheHistory.AgingOpensAGeneration` | crates/core/src/cache.rs:218-248 | An aging pass opens a new youngest generation exactly when every resident page is in one of the three youngest, and there is any. |
| `CacheIndexes.MirrorsIsEquality` | crates/core/src/cache.rs:167-192 | The index invariant says exactly that dirty, unstable, victims and counts are those the page map defines. |
| `CacheIndexes.AdvanceFindsFirstHeld` | crates/core/src/cache.rs:194-201 | Advancing over emptied counters finds the first populated generation of the map. |
| `CacheIndexes.BeginFlushNeedsAnUnstablePage` | crates/core/src/cache.rs:324-332 | Starting a flush keeps the indexes right exactly for a page that is already dirty or mid-flush and whose eight-bit flush count does not wrap. |
| `CacheIndexes.ReserveAgrees` | crates/core/src/cache.rs:255-266 | Evicting the first victim of the index is the eviction the map defines. |
| `CacheIndexes.TouchAgrees` | crates/core/src/cache.rs:236-247 | Promotion by counters is promotion on the map. |
| `CacheIndexes.FillAgrees` | crates/core/src/cache.rs:275-295 | Filling a slot updates every index as the map requires. |
| `ResidencyCache.Cache.constructor` | crates/core/src/cache.rs:103-118 | A new cache satisfies the invariant. |
| `ResidencyCache.Cache.ReserveSlot` | crates/core/src/cache.rs:255-266 | The cache object reserves as the model does and keeps every index exact. |
| `ResidencyCache.Cache.FillSlot` | crates/core/src/cache.rs:271-295 | The cache object fills a slot as the model does, so that the page is of the kind and dirt given (`CacheHistory`), and keeps every index exact. |
| `ResidencyCache.Cache.ReleaseSlot` | crates/core/src/cache.rs:297-302 | The cache object releases a reservation as the model does. |
| `ResidencyCache.Cache.MarkPageDirty` | crates/core/src/cache.rs:304-322 | The cache object marks a page dirty as the model does and keeps every index exact. |
| `ResidencyCache.Cache.StartFlush` | crates/core/src/cache.rs:324-333 | Starting a flush of any resident page updates the map and the dirty index, and leaves the cache valid exactly when the page was dirty or mid-flush and its flush count below 255. |
| `ResidencyCache.Cache.FinishFlush` | crates/core/src/cache.rs:335-351 | Ending a flush keeps every index exact; the page becomes evictable when its last flush ends. |
| `ResidencyCache.Cache.AgePages` | crates/core/src/cache.rs:218-248 | An aging pass, with its loop over the harvest, is the model’s and keeps every index exact. |
| `ResidencyCache.Cache.PurgePages` | crates/core/src/cache.rs:372-386 | Purging a volume, with its loop, drops exactly that volume’s pages. |
| `ResidencyCache.Cache.AdvanceMinSeq` | crates/core/src/cache.rs:194-201 | The loop over emptied generations stops at the first populated one. |
| `ResidencyCache.Cache.UnstablePagesOf` | crates/core/src/cache.rs:353-356 | Exactly the volume’s dirty or mid-flush pages, in order. |
| `ResidencyCache.Cache.DirtyPagesOf` | crates/core/src/cache.rs:358-362 | Exactly the volume’s dirty pages, in order. |
| `ResidencyCache.Cache.InsertBase` | crates/core/src/cache.rs:129-133 | A base page takes a reserved slot. |
| `HostClaim.EveryRunClaimsOnce` | crates/runtime/src/cluster.rs:268-400 | Under any interleaving of nodes, crashes, restarts, lost responses and late-landing writes: a token claims at most one host id, all nodes that adopted a cluster adopted the same one, and two nodes serve under the same host id only if they are the same node, each holding the claim on it. |
| `HostClaim.HostIdIsForLife` | crates/runtime/src/cluster.rs:483-501 | Across any continuation of a run, tokens and served host ids determine each other. |
| `HostClaim.EveryClaimWasTheFirstFree` | crates/runtime/src/cluster.rs:318-372 | In every run every claim is for the first id its token found free: counting up from the token’s first four bytes, wrapping, within 4096 tries, all earlier ids belong to others. |
| `HostClaim.LeftAloneItServes` | crates/runtime/src/cluster.rs:318-372 | From every reachable world a node that is down and then left alone serves under its token, unless all 4096 ids the token may try belong to others. |
| `HostClaim.OneClaimPerToken` | crates/runtime/src/cluster.rs:330-398 | Two stored claims of one token are the same claim. |
| `HostClaim.StepKeeps` | crates/runtime/src/cluster.rs:268-432 | Every store operation, crash and late landing keeps the claim invariant, and claims never change once stored. |
| `HostClaim.ProbeKeeps` | crates/runtime/src/cluster.rs:330-398 | A node moves past an id only when another token holds it. |
| `HostSession.EveryRunOrdersEpochs` | crates/core/src/authority.rs:83-179 | With any number of processes holding stale reads: epochs never fall and rise by one exactly where a session is retired or revoked, no epoch ever has two sessions, and every stored record is one decoding accepts. |
| `HostSession.PassedEpochIsOver` | crates/core/src/authority.rs:114-179 | Once an epoch is passed nothing written later carries it, defends it or retires it. |
| `HostSession.LandsOnItsBase` | crates/core/src/authority.rs:99-179 | A conditional write lands only on the version it was computed from. |
| `HostSession.EveryRunFollowsTheTable` | crates/core/src/authority.rs:99-179 | In every run the first record starts a session at epoch 1 and every later one is a challenge, a defence, a retirement, a revocation under the challenge’s own nonce or an activation of the one before. |
| `HostSession.TransitionsAreThese` | crates/core/src/authority.rs:99-179 | Exactly these records can be written over a record. |
| `HostSession.WhoMayMove` | crates/core/src/authority.rs:99-179 | Which session and which nonce each transition asks for, and what it writes. |
| `HostSession.OneStep` | crates/core/src/authority.rs:99-179 | One transition keeps epoch and session, or raises the epoch by one and revokes. |
| `HostSession.RelinquishEndsOwnSession` | crates/runtime/src/actor_host.rs:3670-3723 | If a draining host’s write lands, the session it ends is its own and was in force until then. |
| `Injector.EveryRunCountsRight` | crates/exec/src/inject.rs:77-135 | Under every interleaving of atomic accesses the total never exceeds capacity, lane counters sum to no more than the total, and nobody about to decrement a counter finds it at zero. Without a capacity this holds as long as fewer than 2^64 events are outstanding. |
| `Injector.CountsExactlyWhileTheyFit` | crates/exec/src/inject.rs:77-135 | Over every run of any length, all three counters equal the events being pushed, queued and being received at every point, exactly when at no point 2^64 events are outstanding. |
| `Injector.BoundedRunFits` | crates/exec/src/inject.rs:77-97 | With a capacity that is always so. |
| `Injector.SaturationBreaksTheSum` | crates/exec/src/inject.rs:84-89 | Past that bound the promise fails: 2^64 pending events saturate the total and the lanes then sum to more than it. |
| `Injector.BackgroundIsNeverStarved` | crates/exec/src/inject.rs:155-241 | Once a background event is queued, at most 32 critical events are delivered before a background one, whatever pushes, polls and cancellations come in between. |
| `Injector.DeliveriesSpendAllowance` | crates/exec/src/inject.rs:158-241 | Every critical delivery while a background event waits uses up one unit of a bounded allowance. |
| `InjectorOrder.CriticalGoesFirst` | crates/exec/src/inject.rs:155-189 | In every run, a receive that looks while both lanes wait delivers the critical event, unless 32 or more critical events were delivered since the last background one; then it delivers the background event. |
| `InjectorOrder.EveryStreakIsCounted` | crates/exec/src/inject.rs:155-241 | In every run the streak is the number of critical events delivered since the last background one, up to 32 bits. |
| `InjectorOrder.DrainedStreamEnds` | crates/exec/src/inject.rs:155-241 | A receive on an injector whose senders are gone and whose lanes are empty reports the end. |
| `Injector.ReceiveHandsOver` | crates/exec/src/inject.rs:155-189 | A receive hands over a waiting event at its second look at the latest, the preferred lane’s if it has one. |
| `Injector.EndMeansEmpty` | crates/exec/src/inject.rs:186-189 | A receive reports the end of the stream only when every sender is gone and nothing waits. |
| `Injector.OnePush` | crates/exec/src/inject.rs:117-135 | Undisturbed, a push to an injector with room counts and queues its event. |
| `Injector.FullRefuses` | crates/exec/src/inject.rs:78-83 | Undisturbed, a push to a full injector is refused and changes nothing. |
| `Injector.AdvanceKeeps` | crates/exec/src/inject.rs:77-135 | Each atomic access of a push moves exactly what that push holds. |
| `Injector.PollKeeps` | crates/exec/src/inject.rs:155-241 | Each step of a receive moves exactly what the receive holds. |
| `BlockKeys.PositionOrders` | crates/core/src/blx.rs:167-198 | Positions order keys exactly as the partition-first comparison does, and tell all keys apart. |
| `BlockKeys.PartitionIsAnInterval` | crates/core/src/blx.rs:93-98 | Every key between two keys of one file partition is in that partition. |
| `ObjectRefs.CheckOverlap` | crates/core/src/manifest.rs:952-969 | The overlap test accepts exactly when every key, endpoint or not, is covered at most the limit; its two other rejections never happen. |
| `ObjectRefs.MaxObjectOverlap` | crates/core/src/manifest.rs:982-996 | The greatest number of objects covering any one key. |
| `ObjectRefs.LimitIsOnTheMaximum` | crates/core/src/manifest.rs:952-996 | The overlap test with limit m and the maximum agree. |
| `ObjectRefs.SweepIsExact` | crates/core/src/manifest.rs:957-967 | At every event key the running count is the number of ranges covering that key, and it ends at zero. |
| `ObjectRefs.CollectEvents` | crates/core/src/manifest.rs:952-956 | The event map holds the numbers of ranges starting and ending at each key. |
| `ObjectBatches.ValidateObjects` | crates/core/src/manifest.rs:892-969 | Validation accepts exactly the lists with distinct identities, batches that agree on their description and hold each announced chunk once and in key order, and bounded overlap. |
| `ManifestMeaning.ValidMeansWellFormed` | crates/core/src/manifest.rs:892-970 | The rules for a list of references, written out on their fields. |
| `ManifestMeaning.CoverIsCount` | crates/core/src/manifest.rs:892-970 | The cover of a key is the number of objects whose range contains it. |
| `ManifestMeaning.ResolvesMeans` | crates/core/src/manifest.rs:421-458 | What a manifest and its list resolve to, written out on their fields. |
| `ObjectBatches.Group` | crates/core/src/manifest.rs:905-937 | Grouping fails exactly when two references clash, and otherwise tabulates every batch exactly. |
| `ObjectBatches.CheckComplete` | crates/core/src/manifest.rs:938-943 | Counting the chunks and looking up each announced index decides completeness. |
| `ObjectBatches.CheckInOrder` | crates/core/src/manifest.rs:944-950 | The walk over a batch decides whether each chunk starts after its predecessor ends. |
| `StateChain.ValidateFileStateChain` | crates/core/src/manifest.rs:460-508 | The verdict is a property of the set of files: order and repetition do not matter. |
| `StateChainMeaning.AcceptsMeansChainsUp` | crates/core/src/manifest.rs:460-508 | A set of files is accepted exactly when files of a batch agree, the first batch starts from the base state or is materialized, each next batch starts where the one before ended, and the last ends in the final state. |
| `StateChain.MaterializingKeepsTheChain` | crates/core/src/manifest.rs:487-508 | Replacing the leading batches, up to post-checksum c, by one materialized batch (c, c) that sorts before the rest keeps the chain accepted for the same base and final checksum. |
| `StateChain.BatchPositionOrders` | crates/core/src/manifest.rs:465-474 | Batches sort by sequence number, then batch number. |
| `StateChain.CollectBatches` | crates/core/src/manifest.rs:465-474 | The states of all batches, or proof that two files of one batch disagree. |
| `StateChain.WalkChain` | crates/core/src/manifest.rs:475-507 | The walk accepts exactly the chains in which each batch starts where its predecessor ended. |
| `Manifests.CurrentFiles` | crates/core/src/manifest.rs:421-450 | Resolution returns the files in identity order that are listed and not removed, or added, or there is no such valid set. |
| `Manifests.BoundManifest` | crates/core/src/manifest.rs:668-694 | The bounded manifest with its list resolves to exactly the same files as the input and encodes within 256 KiB, and one that fits is left alone whatever the list; it is rejected exactly when the input is too large and resolves to nothing. |
| `Manifests.FoldedResolves` | crates/core/src/manifest.rs:680-694 | A manifest folded into a new list resolves to a file set iff the original did. |
| `Manifests.RemoveAll` | crates/core/src/manifest.rs:435-439 | Removal fails exactly when an identity is not listed or is removed twice. |
| `Manifests.AddAll` | crates/core/src/manifest.rs:440-444 | Addition fails exactly when an identity is still present or is added twice. |
| `Manifests.IdentityPositionOrders` | crates/core/src/manifest.rs:22-28 | Positions order identities by kind, namespace, fence and object id, and tell them apart. |
| `Format.OpenSealed` | crates/core/src/format.rs:131-155 | Opening a sealed frame returns its payload. |
| `Format.OnlySealedOpens` | crates/core/src/format.rs:142-155 | Nothing but a sealed frame of that magic opens. |
| `Format.LeInverse` | crates/core/src/format.rs:37-51 | Reading a little-endian field of any width returns the value written. |
| `Format.FromLeInverse` | crates/core/src/format.rs:95-109 | Writing a field that was read gives the same bytes. |
| `Format.LowestByteFirst` | crates/core/src/format.rs:37-52 | Numbers are stored with the lowest byte first. |
| `Format.UnpackInverse` | crates/core/src/format.rs:84-120 | Reading a record off the front returns its fields and leaves the rest. |
| `Format.Enc.Uint` | crates/core/src/format.rs:37-51 | The encoder appends the field’s bytes. |
| `Format.Enc.Append` | crates/core/src/format.rs:53-55 | The encoder appends the bytes given. |
| `Format.Dec.Take` | crates/core/src/format.rs:84-91 | The decoder splits off a prefix or fails on truncation, leaving its input. |
| `Format.Dec.Uint` | crates/core/src/format.rs:93-107 | The decoder reads a field of the given width or fails on truncation. |
| `Blx.OpenHeader` | crates/core/src/blx.rs:537-599 | Opening an encoded header, whatever follows it, returns the header. |
| `Blx.OpenEntry` | crates/core/src/blx.rs:601-643 | Opening an encoded data entry or tombstone returns the entry. |
| `Blx.OpenFooter` | crates/core/src/blx.rs:645-700 | Opening an encoded footer with increasing keys returns its entries. |
| `Blx.OpenTrailer` | crates/core/src/blx.rs:702-729 | Opening an encoded trailer returns offset and length. |
| `Blx.KeyInverse` | crates/core/src/blx.rs:138-156 | A key’s eight bytes decode to the key. |
| `BlxCodec.CodecInverts` | crates/core/src/blx.rs:537-730 | Every part of the format has its fixed size and decodes to what was encoded. |
| `BlxCodec.ScanOfEncodedObject` | crates/core/src/blx.rs:469-535 | For every sorted non-empty chunk within 64 MiB, scanning its object returns the same header and footer. |
| `BlxObjects.ScanInverts` | crates/core/src/blx.rs:732-784 | The scan accepts an encoded object and returns its header and index. |
| `BlxObjects.EntriesTile` | crates/core/src/blx.rs:750-782 | The entries tile the span between header and footer exactly, and footer and trailer fill the rest. |
| `BlxObjects.Find` | crates/core/src/blx.rs:253-258 | Binary search finds the index entry of a key exactly when there is one. |
| `BlxObjects.Lookup` | crates/core/src/blx.rs:253-258 | Looking a key up and opening the span found returns the original entry for every key of the object and nothing for absent keys. |
| `BlxObjects.EncodeObject` | crates/core/src/blx.rs:469-535 | The encoding loop produces the specified object. |
| `BlxObjects.Scan` | crates/core/src/blx.rs:732-784 | The scanning loop decides the specified scan. |
| `BlxChunks.ChunksAreGood` | crates/core/src/blx.rs:398-458 | The chunks concatenate to the key-sorted entries; none is empty; every chunk of two or more entries stays within the size estimate; a partitioned chunk stays in one file partition. |
| `BlxChunks.ChunksAreWellCut` | crates/core/src/blx.rs:398-457 | A chunk ends only where the next entry lies in another file partition, when that matters, or would take the object over 32 MiB. |
| `BlxChunks.UpperBoundIsExact` | crates/core/src/blx.rs:460-467 | The size bound of an entry is its encoded size with the worst compression. |
| `BlxChunks.ChunkEncodes` | crates/core/src/blx.rs:443-467 | A chunk of two or more entries encodes to at most 32 MiB, and every chunk encodes. |
| `BlxChunks.ChunkRangesIncrease` | crates/core/src/blx.rs:398-425 | Key ranges of chunks strictly increase, and every chunk is sorted. |
| `BlxChunks.ChunkIntervalInOnePartition` | crates/core/src/blx.rs:335-344 | The whole key interval of a partitioned chunk lies in one file partition. |
| `BlxChunks.CodecWithinBound` | crates/core/src/blx.rs:460-467 | No entry encodes to more than the bound the estimate counts with. |
| `BlxBuilder.CutEntries` | crates/core/src/blx.rs:398-425 | The cutting loop makes the specified chunks. |
| `BlxBuilder.CountChunks` | crates/core/src/blx.rs:370-389 | The counting loop counts exactly the chunks that will be made. |
| `BlxBuilder.BlxBatchBuilder.Insert` | crates/core/src/blx.rs:359-368 | An entry replaces one that is not newer. |
| `BlxBuilder.BlxBatchBuilder.ObjectIdsFit` | crates/core/src/blx.rs:370-396 | True exactly when no object id that finishing assigns overflows 64 bits. |
| `BlxBuilder.BlxBatchBuilder.Finish` | crates/core/src/blx.rs:398-441 | One object per chunk of the key-sorted entries, cut only where a chunk is full or, when asked, its file partition ends; every header names its batch, id, chunk number, keys and entry count. |
| `Compaction.NewestIsNewest` | crates/core/src/blx.rs:359-368 | Inserting entry by entry keeps, for exactly the keys that occur, the entry of greatest generation, the last of several. |
| `Compaction.CompactionKeepsGreatest` | crates/core/src/blx.rs:833-890 | With the run replaced by its compacted output, the same keys occur over all the files and the entry of greatest generation of each, the last of several, is the one it was. |
| `Compaction.InOrderOfSorted` | crates/core/src/blx.rs:861-877 | A sorted run of entries is its own table written out in key order. |
| `ArchiveIds.RecoveryIdsRunOut` | crates/core/src/replica_recovery.rs:273-292 | Counter-result: the recovery archive’s ids reach exactly 1025 objects, and some sorted run compacts to 1026 chunks. |
| `ArchiveIds.RecoveryCompactionAsserts` | crates/core/src/replica_recovery.rs:263-292 | Counter-result: a well-formed object, one tombstone in each of 1026 file partitions, whose compaction under the recovery archive’s first id asserts and under the id below does not. |
| `Compaction.CompactionKeepsNewest` | crates/core/src/blx.rs:833-890 | Replacing a run of files by its compacted output, tombstones retained, changes no key’s newest entry, whatever files come before and after. |
| `Compaction.CompactionKeepsVisible` | crates/core/src/blx.rs:861-877 | With tombstones dropped, visible data is unchanged exactly when no dropped tombstone is the newest entry of a key for which other files still hold data. |
| `Compaction.UnsharedTombstonesHideNothing` | crates/core/src/blx.rs:833-835 | That holds in particular when no remaining file holds a tombstoned key. |
| `Compaction.DroppingCanUncover` | crates/core/src/blx.rs:833-835 | And fails for a tombstone over older data in an earlier file. |
| `Compaction.NewestOfInOrder` | crates/core/src/blx.rs:861-877 | Writing the newest entries out in key order loses nothing. |
| `StateChecksum.BlockState.ReplaceStateBlock` | crates/core/src/blx.rs:798-811 | Replacing or removing a block keeps the checksum equal to the fold over all visible blocks. |
| `StateChecksum.StateWithout` | crates/core/src/blx.rs:787-796 | Any block can be taken out of the exclusive-or fold. |
| `StateChecksum.CompactionKeepsState` | crates/core/src/blx.rs:787-811 | The state checksum does not see such a compaction. |
| `BlxBuilder.BlxCompactor.AddObject` | crates/core/src/blx.rs:842-859 | Adding an object merges its entries, newest generation first, or fails exactly when its bytes do not scan. |
| `BlxBuilder.CompactObjects` | crates/core/src/blx.rs:880-890 | Compaction reports malformed input exactly when an input does not scan, and asserts exactly when the inputs scan and their sequence interval, page lengths, chunk count or object ids are not as asserted; otherwise its objects hold the compacted run of the inputs’ entries. |
| `BlxBuilder.CompactedObjectsDecode` | crates/core/src/blx.rs:842-890 | Read back, the objects a compaction wrote are exactly the compacted run. |
| `ShortBlocks.ShortBlockStopsCompaction` | crates/core/src/blx.rs:623-637 | Counter-result: wherever a stored block decompresses to anything but a page, there is an object with that block that decodes and whose compaction asserts. |
| `ShortBlocks.OpenStoredEntry` | crates/core/src/blx.rs:616-643 | An entry opens whatever length its block decompresses to, as long as it declares a page. |
| `BlxBuilder.DroppingKeepsMeaning` | crates/core/src/blx.rs:833-890 | From bytes to bytes with tombstones dropped: the files show the same data exactly when no dropped tombstone is the newest entry of a key for which files before or after still hold data. |
| `BlxBuilder.CompactionKeepsMeaning` | crates/core/src/blx.rs:833-890 | From bytes to bytes: the output of a compaction that retains tombstones, between any files before and after, gives every key the same newest entry as the files it came from. |
| `BlxBuilder.DecodeInverts` | crates/core/src/blx.rs:842-859 | Reading an encoded object’s entries returns them. |
| `Gc.Plan` | crates/core/src/gc.rs:26-136 | A plan is empty if any root cannot be read all the way down, and otherwise names exactly the listed keys outside the closure of all heads, base roots and unpublished pending manifests that are past grace, that is, put more than the grace before now. |
| `Gc.MarkManifest` | crates/core/src/gc.rs:138-180 | Marking a manifest succeeds exactly when its list, files and base read, and marks exactly its closure. |
| `Gc.MarkObjects` | crates/core/src/gc.rs:182-193 | Marks exactly the referenced objects that are listed. |
| `Gc.MarkRoot` | crates/core/src/gc.rs:33-80 | Marks the closure of a head or base root, or reports it unreadable. |
| `Gc.MarkPending` | crates/core/src/gc.rs:88-121 | Marks the closure of a pending manifest unless a head has reached it, or reports it unreadable. |
| `GcReach.LiveMeansReachable` | crates/core/src/gc.rs:26-136 | What the plan keeps is exactly what a path of references leads to from a head, a base root, or the marker of a publication that its volume’s head has not reached. |
| `GcReach.AllReadMeansReachedReads` | crates/core/src/gc.rs:26-136 | The plan acts exactly when everything so reached is there and decodes. |
| `GcReach.PublicationIsSpared` | crates/core/src/gc.rs:88-121 | As long as no head of its volume is at or past its capture and archive sequence, a pending manifest keeps its marker, list, files and base. |
| `GcReach.PublishedMarkerGoes` | crates/core/src/gc.rs:88-121 | Once the head is at or past it, the marker is named when it is past grace. |
| `GcSafety.ReplanFindsNothing` | crates/core/src/gc.rs:26-136 | Planning again after the deletions, at the same time, names nothing. |
| `GcSafety.SweepKeepsLive` | crates/core/src/gc.rs:124-135 | A sweep changes neither what reads nor what is reachable. |
| `GcSafety.ViewKnowsLive` | crates/runtime/src/collector.rs:53-96 | A view of the bucket that shows every root and reads all the way down has exactly the bucket’s reachable objects. |
| `GcSafety.OnlyMissedRootsUncover` | crates/runtime/src/collector.rs:53-96 | What a view that reads all the way down takes for garbage is live in the bucket exactly when a root missing from the view reaches it. |
| `Collector.StoreCollector.Pass` | crates/runtime/src/collector.rs:31-119 | Every delete a pass issues names an object that no root of what it read reaches, under a generation at which the object was in every listing and read for the whole grace period; a pass that meets no fault issues every delete that is due and counts those that took effect. An issued delete hits an object live in the listed store exactly when a root the pass had to skip reaches it, so a pass that skipped no root hits none. |
| `Collector.CountsWhatTookEffect` | crates/runtime/src/collector.rs:99-118 | The count a pass returns is the number of deletes that removed their object. |
| `Collector.StoreCollector.Read` | crates/runtime/src/collector.rs:69-95 | One listed object is skipped exactly when its body is gone or at another generation; otherwise its observation starts over exactly when the generation changed. |
| `Collector.StoreCollector.Sweep` | crates/runtime/src/collector.rs:99-118 | Deletes are conditional on the observed generation and forget the object whether they succeed or conflict. |
| `Collector.OnlySkippedRootsLoseData` | crates/runtime/src/collector.rs:53-96 | What a pass takes for garbage was reachable in the listed store exactly when a root that it had to skip reaches it. |
| `Collector.SkippedHeadLosesItsManifest` | crates/runtime/src/collector.rs:70-79 | Counter-result: when a head is rewritten between LIST and GET, the manifest it points at before and after is due for deletion in that pass. |
| `Collector.PassSparesLiveObjects` | crates/runtime/src/collector.rs:31-119 | A pass that skipped no root takes nothing for garbage that the roots of the listed store reach. |
| `Collector.DoomedIsMature` | crates/runtime/src/collector.rs:94-98 | Ages 0 and 2 with a plan at time 2 and grace 1 select exactly the mature objects. |
| `Spool.ScanReplicaSpool` | crates/core/src/replica_spool.rs:132-205 | The scanning loop computes the specified scan. |
| `Spool.ScanIsFold` | crates/core/src/replica_spool.rs:132-205 | For accepted frames followed by any proper prefix of one more, the scan is the fold over the whole frames and its valid length is theirs. |
| `Spool.RescanIsIdempotent` | crates/core/src/replica_spool.rs:142-204 | Truncating any accepted spool to its valid length and scanning again gives the same, with no torn tail. |
| `Spool.AppendIsOneStep` | crates/core/src/replica_spool.rs:142-204 | Appending a frame at the valid length is one step of the fold. |
| `Spool.TornFrame` | crates/core/src/replica_spool.rs:207-214 | A proper prefix of a whole frame has no frame length. |
| `SpoolProofs.EveryScanIsConsistent` | crates/core/src/replica_spool.rs:150-201 | Whatever the bytes, in an accepted scan the uncommitted artifacts are exactly those no commit requires, all required ones are present, commit ranks never fall, and all frames share one identity. |
| `SpoolMeaning.AcceptedSpoolsAreThese` | crates/core/src/replica_spool.rs:132-205 | A spool of whole frames is accepted exactly when every frame opens, all have one origin, an artifact comes again only with the same bytes, and a commit comes after everything it requires and not before an earlier commit; the state is then what the frames say. |
| `SpoolMeaning.EveryScanStopsAfter` | crates/core/src/replica_spool.rs:132-215 | Every scan of any bytes takes whole frames as long as it can, stops at a torn or unknown one, and rejects at one that may not follow. |
| `SpoolProofs.CommitsFollowTheirArtifacts` | crates/core/src/replica_spool.rs:172-186 | Every commit has a frame, and frames of all artifacts it requires come before it. |
| `SpoolWire.OpenSealedArtifact` | crates/core/src/replica_spool.rs:59-103 | Opening a sealed artifact returns it exactly when the checksum it was sealed with, which sealing takes on trust, is that of its bytes. |
| `SpoolWire.OpenSealedCommit` | crates/core/src/replica_spool.rs:259-269 | A sealed commit opens again exactly when it requires at most a million artifacts. |
| `SpoolWire.OneTooManySealsAndNeverOpens` | crates/core/src/replica_spool.rs:259-269 | Counter-result: a commit that requires a million and one artifacts seals and does not open. |
| `SpoolWire.StepOfSealedArtifact` | crates/core/src/replica_spool.rs:150-171 | Scanning a freshly sealed artifact takes exactly that artifact, or rejects the spool when its checksum is wrong. |
| `SpoolWire.StepOfSealedCommit` | crates/core/src/replica_spool.rs:172-201 | Scanning a freshly sealed commit takes exactly that commit, or rejects the spool when it requires too much. |
| `Recovery.ExportReplicaRecovery` | crates/core/src/replica_recovery.rs:428-528 | A successful export has a sync watermark at least that of every commit in any residue and of the store’s manifest, and comes from a residue the head vouches for; the residue is the last one whose last commit no other exceeds by watermark, capture and sequence, in that order; it succeeds exactly when every residue is acceptable and that one is not behind the store and has its files at hand; the store is reported as newer exactly when its intact manifest is above by watermark, capture and archive sequence. |
| `Recovery.AcceptableMeans` | crates/core/src/replica_recovery.rs:439-487 | Acceptance of a residue, written out on the fields of the head and of the residue. |
| `Recovery.Vet` | crates/core/src/replica_recovery.rs:439-487 | A residue is accepted exactly when it scans as this volume’s and its peer and epoch are named by the head, or it has a newer epoch and a commit by the current holder at the current fence. |
| `Recovery.AllowedReplicaEpochs` | crates/core/src/replica_recovery.rs:530-552 | The table holds exactly the peers and epochs the head names. |
| `Recovery.VetAll` | crates/core/src/replica_recovery.rs:438-487 | One unacceptable residue fails the recovery; otherwise exactly the residues with a commit are candidates. |
| `Recovery.PickNewest` | crates/core/src/replica_recovery.rs:488-491 | The last of the greatest ranks. |
| `Recovery.ExportCommit` | crates/core/src/replica_recovery.rs:578-626 | The export holds every BLX file of the volume the record names, intact, plus both journal copies and nothing else; it fails exactly when a named file is not at hand. |
| `Recovery.GatherFiles` | crates/core/src/replica_recovery.rs:588-609 | Gathering succeeds exactly when every needed file is at hand and intact. |
| `Recovery.RefenceReplicaExport` | crates/core/src/replica_recovery.rs:148-195 | Refencing rewrites the journal record under the new fence; it fails only without a journal, or on a journal that does not decode. |
| `Recovery.RefencingChangesOnlyTheFence` | crates/core/src/replica_recovery.rs:148-195 | Every journal of a recovered export decodes, and refencing the export changes the fence and nothing else. |

## Left out

- userfaultfd, memfd, Firecracker orchestration, HTTP API, metrics, configuration: foreign calls and plumbing.
- The rest of actor_host.rs and the engine actors: only the dispatcher and the draining client of the session record are modelled.
- Protobuf envelopes, TLS membership and placement records: they rest on code outside the repository.
- File locking, permissions and rename stages of the identity file: only "written durably before probing" is kept, as the order of steps in `HostClaim`.
- The inside of CRC-32C (section 12.1 of RFC 3720) and of lz4, and any claim that every bit flip is detected.
- Key strings: store keys and blob names are values, so that distinct identities have distinct keys; parsing them is not modelled.
- Byte encodings of manifests, file lists, heads and journal records: their decoders are parameters, and only the encoded sizes of manifests and lists are computed.
- The state contribution of a block is a parameter of the state checksum rather than a checksum of its 24 encoded bytes.
- Time is a natural number given to each call. The order in which a collector pass visits keys is not modelled.
- The cache's clock and generation counter are unbounded numbers.
- ObjectRefs.CheckOverlap: requires first key at or before last key of each reference, which decoding a reference enforces.
- Manifests.CurrentFiles: requires a matching list to be one its own encoder accepts, which taking its reference asserts, and references with ordered keys, which decoding enforces.
- Manifests.BoundManifest: requires the manifest shape that encoding asserts and, when the manifest is too large, what `CurrentFiles` requires.
- BlxBuilder.CompactObjects: requires that one page, however badly it compresses, fits an object; an assertion is an outcome, and which one fails first is not modelled.
- Recovery.ExportReplicaRecovery: which of several applicable errors is reported is stated only for a head without an assignment and, per residue, for peers and epochs the head does not name.
- prepare_replica_publication and build_replica_archive: copying of fields around `BlxBuilder.CompactObjects` and `Manifests`.
