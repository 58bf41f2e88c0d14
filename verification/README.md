# A verified model of the node's data structures

This project models the parts of a Bitcoin-style full node whose correctness is hardest to see from the code: the script
check queue and its pool, the address manager, the coins cache, the signature cache, the rolling Bloom filter, 256-bit
arithmetic with the compact target format, the block tree with its skip list and its active chain, soft rejection of blocks,
Base58, and compact blocks. Each part is a model of what the code does, branch by branch, and theorems about it that hold
for every input, every reachable state or every run. `dafny verify dfyconfig.toml` checks all of it.

## Layout

| files | what they hold |
|---|---|
| `CheckQueue`, `CheckQueueProof`, `CheckQueuePool`, `CheckQueueGuards` | the check queue as a state machine, one step per critical section; its invariant, safety and termination; the pool of queues; the scope guards that users hold, as a state machine over pool and queues |
| `AddrTables`, `AddrMoves`, `AddrMan`, `AddrCheck`, `AddrEffects`, `AddrLoad`, `AddrSerialize` | the address tables and their invariant; the moves between them; the manager; its self-check; what each call does to the entry it is about, and how addresses are spread; what reading makes of an arbitrary stream; writing and reading |
| `Coins` | cache entries over a view, merging a child into its parent, flushing, the store and the shard |
| `CuckooCache` | packed flags, displacement, epochs |
| `RollingBloom` | two-bit tags in pairs of 64-bit words |
| `Bits`, `Limbs`, `LimbShifts`, `Arith256`, `Compact` | bit operations on numbers, limb sequences, the arithmetic class, the compact format and the block proof |
| `BlockIndex`, `ActiveChain`, `Descendants`, `SoftRejection` | the block tree |
| `Radix`, `Base58` | numbers in a base, and the codec |
| `CompactBlocks`, `CompactExchange` | reconstruction and differential indices; what ends up in the slots, and the exchange between two nodes |
| `Wrappers` | `Option` and `Result` |

## How the code is represented

- Hash functions, the short-identifier hash, `IsRoutable`, `IsUnspendable`, `CheckBlock` and the bucket-size test of a hash map
  are function-valued parameters, and nothing is assumed of them. Clocks and sizes computed in floating point are parameters.
  The draw that admits a further reference to a known address is a parameter; other random choices are nondeterministic.
  The services that an address offers, a word of flags in the code, are the set of those flags.
- A function whose assertion can fail, or that can throw, says so in its result; that it does not happen is then proved
  of every run, not required.
- The check queue is a state machine: every step is what one thread does between taking and releasing the mutex, in any
  interleaving, with spurious wake-ups. Checks have one of three outcomes, as in the code, and do not throw.
- Objects that the code changes in place are classes; vectors, maps and buffers are fields that are reassigned. Pointers into
  the array of tree items are positions in it.
- Unsigned overflow is written out where the code relies on it: compact-block offsets, differential indices, `45 * size` of the
  cuckoo cache, the extra-transaction counter. So is the one signed sum that a caller can make overflow, height plus number
  of blocks in soft rejection: overflow is undefined in C++, and the model takes the sum to wrap round. Entry ids and times
  are unbounded.

## What the proofs turned up

- A scope guard that still holds a queue must not be assigned to: its defaulted move assignment forgets the queue, which
  then stays in the running list for ever. `LostMeansDropped` shows that a queue is lost in this way and in no other, and
  `AssignmentLosesQueue` gives the run. The one guard of src/validation.cpp:3454-3457 is initialised and never assigned to.
- `x *= x` on a 256-bit number gives zero: the code clears the target before it reads the operand. The result is the square
  modulo 2^256 if and only if the low 128 bits of `x` are zero (`SquareInPlace`); `TwoTimesItself` is an input that fails.
- `CAddrMan::Good_` with a time that is not positive leaves an entry that `Check_` rejects. `GoodTimes` gives the exact
  condition and `GoodAtZero` a run; all structural conditions hold whatever the times are.
- `CAddrMan::Add_` returns true for an unknown address even when the address is dropped again at once. `WelcomeStays` says
  exactly when it is kept, and `SecondAddressIsLost` is a run of two calls that loses one.
- `CAddrMan::Check_` passes exactly when all that it looks at is in order (`Check`). It does not see ids out of range,
  addresses of no entry, or, because it reads a zero from a missing key of the map, a missing address of entry 0
  (`PassesIsInv`); `StrayAddressPasses` is a structure that passes and is not valid.
- `CAddrMan::Unserialize` rejects counts that are too large but not negative ones, and does not look for repeated network
  addresses. For every stream it accepts, the result is valid if and only if neither count is negative and all entries that
  share a network address are new ones without a place, which are pruned (`Unserialize`). After the stream of
  `NegativeCountIsRead` an entry has the id that marks an empty slot. After that of `RepeatLosesAddress` a tried entry has
  lost its address. A repeat that is dropped does no harm (`RepeatIsDropped`).
- A comment in the cuckoo cache says that the first displaced element is the one at the first hash location; the code takes
  the second. It also says that the element just put in is not moved; it is if and only if two of the next element's
  hashes, one after the other, lead to its slot (`NextLocMovesOn`, and `StraightBack` for such hashes).
- The load-before-add contract of `AddCoin` is needed: without it, spending the new coin brings the parent's coin back
  (`MayAddIsExact`, `UnreadAddMisleads`). Dropping the output from the cache in between counts as not having loaded it.
- Differential index lists are recovered if and only if each index is larger than the one before it, or that one is 2^32-1
  (`RecoverWritten`).
- The indices of prefilled transactions increase if and only if no offset is 2^32-1 (`AscendingIffSmall`). With offsets 0
  and 2^32-1 two of them go to one slot, and the message is accepted (`TwoForOneSlot`); indexing stays in range all the same
  (`PlacePrefilled`).
- `softrejectblock` takes any number of blocks up to 2^31-1, and adds it to the height in 32 bits. When the sum wraps round,
  only the block itself is marked. The marks come out as they should if and only if the sum fits or no block is known that
  extends this one (`SoftRejectBlock`, and `AcceptSoftRejectedBlock` for the stored mark). `LargestCountMarksOneBlock` is an
  input that fails. When callers keep the sum within 32 bits, no sum ever wraps round (`RunSound`).
- A transaction at hand that shares its short identifier with one of the block's is taken for it, unless a second one is
  seen, which empties the slot. So the list that a compact block is completed to is the block if and only if no slot ends up
  with another transaction (`Exchange`); `FalseMatchStays` and `ClearedIsRight` are an input for each.
- The `extra_count` of a partially downloaded block is the number of slots that hold an extra transaction if and only if no
  extra transaction drove one of the mempool's out of its slot (`ExtraCountIffNoneEvicted`); otherwise it is too small,
  and can wrap round below zero (`ExtraCountWraps`).

## Model

| member | source | states |
|---|---|---|
| CheckQueue.BatchLength | src/checkqueue.h:264-277 | a batch is never empty and never longer than the queue or the batch size |
| CheckQueueProof.StepInv | src/checkqueue.h:181-298 | every step of the master, a worker or the caller keeps the whole invariant: exact counters, conservation of checks, justified and traced results, sessions |
| CheckQueueProof.RunKeepsInv | src/checkqueue.h:181-298 | every state of every interleaving satisfies the invariant |
| CheckQueueProof.CountersCount | src/checkqueue.h:94-117 | in every reachable state nTotal - nIdle is the number of threads holding a batch, and nTodo is the queue plus all batches in flight |
| CheckQueueProof.WaitTellsTheTruth | src/checkqueue.h:387-397 | in every run Wait gives true only if every check added in the session ran and passed, false only if one failed, and nothing only after cancellation or an empty result |
| CheckQueueProof.WaitResultIsExact | src/checkqueue.h:235-253 | in the step of any run that makes Wait return, the result is empty if and only if the token is cancelled or some check came back empty, else false if and only if some check failed, else true |
| CheckQueueProof.ResultWasExact | src/checkqueue.h:387-397 | the last result of Wait in any state of any run is exact of the state in which it was given |
| CheckQueueProof.BatchIsFairShare | src/checkqueue.h:264-277 | a batch is the largest that leaves as much to every other thread, within the batch size, and one at least |
| CheckQueueProof.AddWakes | src/checkqueue.h:407-429 | several checks wake every sleeping worker, one wakes one, none wakes none |
| CheckQueueProof.CancelledStep | src/checkqueue.h:214-220 | under a cancelled token no step runs a check, and whoever finishes a batch empties the queue |
| CheckQueueProof.NothingRunsOnceCancelled | src/checkqueue.h:284-297 | over any stretch of a run under a cancelled token no check runs |
| CheckQueueProof.IdleAfterWait | src/checkqueue.h:431-434 | in every run the queue is idle when Wait has returned |
| CheckQueueProof.NeverStuck | src/checkqueue.h:226-282 | while the master is inside Wait some thread can move: no deadlock and no lost wake-up |
| CheckQueueProof.StepMeasure | src/checkqueue.h:197-281 | every step but a spurious wake-up or a call from outside makes the measure smaller |
| CheckQueueProof.WaitIsShort | src/checkqueue.h:387-397 | whatever the schedule, Wait takes at most Measure steps |
| CheckQueueProof.WaitReturns | src/checkqueue.h:387-397 | a run inside Wait that nothing can prolong has returned, with a true verdict, and leaves the queue idle |
| CheckQueueProof.WaitCanReturn | src/checkqueue.h:387-397 | from every state inside Wait there is a run in which Wait returns |
| CheckQueuePool.FindWorst | src/checkqueuepool.h:251-263 | the running checker with the least value, and among those the one that started first |
| CheckQueuePool.Pool.constructor | src/checkqueuepool.h:174-198 | a new pool has all its queues idle |
| CheckQueuePool.Pool.PreemptForRequest | src/checkqueuepool.h:246-271 | the whole first part of GetChecker, and exactly when its assertion fails |
| CheckQueuePool.PreemptKeeps | src/checkqueuepool.h:246-271 | in a valid pool the assertion holds, and cancelling the worst checker keeps the invariant |
| CheckQueuePool.PreemptTells | src/checkqueuepool.h:246-271 | with a queue idle nothing changes; otherwise exactly the checker of least value, then of earliest start, is told to stop, and only if it is worth less than the request |
| CheckQueuePool.PreemptIsFair | src/checkqueuepool.h:265-270 | no checker worth as much as the request is told to stop, and one is if any is worth less |
| CheckQueuePool.ServedInOrder | src/checkqueuepool.h:273-298 | queues are handed out in the order in which they became idle, each with its own value, time and new session |
| CheckQueuePool.TakeKeeps | src/checkqueuepool.h:144-154 | in a valid pool the session can always be started, and the invariant is kept |
| CheckQueuePool.Pool.ReturnQueueToPool | src/checkqueuepool.h:302-327 | the queue moves to the end of the idle list, unless it is not idle or not found, and exactly then an assertion fails |
| CheckQueuePool.ReturnKeeps | src/checkqueuepool.h:302-327 | a running queue whose Wait is over is idle and found, goes to the end of the idle list, and no other entry changes; the invariant is kept |
| CheckQueuePool.TakeKeepsPartition | src/checkqueuepool.h:275-282 | idle and running lists stay a partition of all queues |
| CheckQueuePool.ReturnKeepsPartition | src/checkqueuepool.h:302-327 | idle and running lists stay a partition of all queues |
| CheckQueuePool.CancelKeepsInv | src/checkqueuepool.h:265-270 | cancelling a session, even twice, keeps the queue's invariant |
| CheckQueueGuards.StepKeeps | src/checkqueuepool.h:64-167 | every step of users, guards, pool and threads keeps the invariant; no assertion fails, nothing throws but Add on a guard without a queue |
| CheckQueueGuards.RunIsSafe | src/checkqueuepool.h:64-327 | after every run, whatever comes next: returned queues are idle and found, no session start throws, and exactly a guard without a queue refuses checks |
| CheckQueueGuards.ResultIsTrue | src/checkqueuepool.h:100-119 | in every run the result a guard keeps is what Wait returned, and is true of the session of its queue |
| CheckQueueGuards.DestroyStops | src/checkqueuepool.h:79-88 | a guard that goes while it holds a queue cancels that session and no other, and waits for it |
| CheckQueueGuards.LostAfter | src/checkqueuepool.h:73-74 | one step loses a queue exactly when it assigns to a guard that holds it |
| CheckQueueGuards.LostMeansDropped | src/checkqueuepool.h:73-74 | over every run exactly the queues of assigned-to guards are lost |
| CheckQueueGuards.GuardsMatchRunning | src/checkqueuepool.h:79-119 | otherwise live guards and running checkers match one to one, and none runs when no guard holds a queue |
| CheckQueueGuards.AllLostStays | src/checkqueuepool.h:273-273 | once all queues are lost no request is served again |
| CheckQueueGuards.AssignmentLosesQueue | src/checkqueuepool.h:74-74 | a run of three steps that loses the only queue |
| AddrTables.SwapKeeps | src/addrman.cpp:101-117 | swapping two places of the random order keeps the invariant |
| AddrTables.CreateKeeps | src/addrman.cpp:90-99 | a created entry is in all indexes, in no table yet |
| AddrTables.AppendKeeps | src/addrman.cpp:90-99 | any further entry with a new address is indexed, and in no table yet |
| AddrTables.DeleteKeeps | src/addrman.cpp:119-130 | deleting an unreferenced entry keeps the invariant |
| AddrTables.DeleteLeaves | src/addrman.cpp:119-130 | deleting changes no other entry but for its place in the random order |
| AddrTables.ReleaseKeeps | src/addrman.cpp:132-144 | taking one reference away keeps reference counts equal to the number of slots |
| AddrMoves.ClearKeeps | src/addrman.cpp:132-144 | emptying a slot of the new table, deleting the entry with its last reference, keeps the invariant |
| AddrMoves.ClearLeaves | src/addrman.cpp:132-144 | no other slot and no other entry is touched |
| AddrMoves.PlaceKeeps | src/addrman.cpp:303-306 | a further reference at an entry's own slot keeps the invariant |
| AddrMoves.RehomeKeeps | src/addrman.cpp:176-185 | an entry evicted from the tried table goes to its own slot in the new table |
| AddrMoves.VacateKeeps | src/addrman.cpp:163-187 | making room in the tried table keeps the invariant |
| AddrMoves.MakeTriedKeeps | src/addrman.cpp:146-192 | moving an entry to the tried table keeps the invariant |
| AddrMoves.MakeTriedEffect | src/addrman.cpp:146-192 | the entry is then tried, at its slot, with no reference in the new table |
| AddrMoves.InsertKeeps | src/addrman.cpp:291-312 | placing a new address, or giving up on it, keeps the invariant |
| AddrMoves.InsertEffect | src/addrman.cpp:291-312 | exactly when the entry is placed, and when it is dropped |
| AddrMan.AddrMan.constructor | src/addrman.h:472-491 | a new manager satisfies the invariant |
| AddrMan.AddrMan.SwapRandom | src/addrman.cpp:101-117 | the random order with two places swapped, indexes in step |
| AddrMan.AddrMan.Delete | src/addrman.cpp:119-130 | the state without the entry; the asserted conditions hold |
| AddrMan.AddrMan.ClearNew | src/addrman.cpp:132-144 | the state with the slot empty; the asserted condition holds |
| AddrMan.AddrMan.RemoveFromNew | src/addrman.cpp:146-157 | all references to the entry are gone from the new table |
| AddrMan.AddrMan.VacateTried | src/addrman.cpp:163-187 | the tried slot is free, its occupant back in the new table |
| AddrMan.AddrMan.MakeTried | src/addrman.cpp:146-192 | the entry has moved to the tried table; the asserted conditions hold |
| AddrMan.AddrMan.FindNewBucket | src/addrman.cpp:220-234 | a bucket that holds the entry, from any start, or none exactly when no bucket does |
| AddrMan.AddrMan.Good | src/addrman.cpp:194-240 | the state after a successful connection, invariant kept, for every address and time |
| AddrMan.AddrMan.Insert | src/addrman.cpp:291-312 | the state after placing or dropping an entry |
| AddrMan.AddrMan.Add | src/addrman.cpp:242-314 | true exactly for a routable unknown address; what becomes of the structures, for a known address by the draw; invariant kept |
| AddrMan.AddrMan.GetAddr | src/addrman.cpp:461-476 | the addresses not terrible among the first ones of a shuffled order, at most 2500 and 23 per cent of all, or all there are; invariant kept |
| AddrMan.WorthwhileDistinct | src/addrman.cpp:461-476 | no entry is given away twice |
| AddrMan.CommendKeeps | src/addrman.cpp:194-240 | Good_ keeps the invariant |
| AddrMan.AddKeeps | src/addrman.cpp:242-314 | every outcome of Add_ keeps the invariant |
| AddrMan.StepKeeps | src/addrman.cpp:194-476 | every call keeps the invariant |
| AddrMan.RunKeeps | src/addrman.cpp:194-476 | after every run of Add_, Good_ and GetAddr_ from a fresh manager the invariant holds |
| AddrCheck.Check | src/addrman.cpp:396-458 | for all structures, valid or not: the self-check passes if and only if all that it looks at is in order |
| AddrCheck.PassesIsInv | src/addrman.cpp:396-458 | what passes and has ids in range and an exact address map is exactly what is valid, with times in order and a key |
| AddrCheck.TriedPasses | src/addrman.cpp:428-440 | the loop over the tried table accepts exactly a valid tried table |
| AddrCheck.NewPasses | src/addrman.cpp:442-451 | the loop over the new table accepts exactly a table whose slots match the reference counts |
| AddrCheck.WelcomeStays | src/addrman.cpp:283-314 | an unknown address is kept if and only if its slot is free, or the occupant is terrible or referred to elsewhere |
| AddrCheck.SecondAddressIsLost | src/addrman.cpp:283-314 | two calls that both return true, after which the second address is not known |
| AddrCheck.StrayAddressPasses | src/addrman.cpp:396-458 | an address of no entry, which the self-check passes and the invariant forbids |
| AddrCheck.GoodTimes | src/addrman.cpp:194-240 | Good_ keeps the time conditions of the self-check if and only if it finds no such entry or the time is positive |
| AddrCheck.GoodAtZero | src/addrman.cpp:194-240 | Add_ and then Good_ at time zero, after which the self-check fails |
| AddrCheck.AddTimes | src/addrman.cpp:242-314 | Add_ keeps them always |
| AddrCheck.RunTimes | src/addrman.cpp:396-458 | runs with positive times pass the self-check throughout |
| AddrEffects.KnownAfterAdd | src/addrman.cpp:250-288 | Add_ on a known address: the time shown never goes down nor beyond the announced one, and becomes that less the penalty exactly when it lags by more than the interval, an hour or a day; no penalty for a self-announcement; the services are the union; a reference is gained exactly if all five tests pass |
| AddrEffects.UnknownAfterAdd | src/addrman.cpp:283-312 | the entry of an unknown address that is kept: announced time less penalty, nothing tried, one reference, at the slot of its source |
| AddrEffects.AfterGood | src/addrman.cpp:194-240 | a known service is tried in its own slot, with both times set and no failures; other entries only move; an unknown one changes nothing |
| AddrEffects.EvictedGoesHome | src/addrman.cpp:163-187 | whoever held the tried slot stands once in the new table, at the slot of its first source |
| AddrEffects.TerribleIff | src/addrman.cpp:45-65 | when an entry is terrible, in seconds and counts |
| AddrEffects.TerribleStays | src/addrman.cpp:45-65 | a terrible entry, unless only from the future, does not get better with time |
| AddrEffects.ReachedIsNotTerrible | src/addrman.cpp:45-65 | reached within two days and seen within seven, it is not terrible, however often it failed since |
| AddrEffects.HandedOutIff | src/addrman.cpp:461-476 | exactly the addresses of the first entries that are not terrible are handed out |
| AddrEffects.GroupTriedBuckets | src/addrman.cpp:10-20 | the services of one group reach 8 tried buckets at most |
| AddrEffects.GroupNewBuckets | src/addrman.cpp:22-34 | what the sources of one group announce reaches 64 new buckets at most |
| AddrEffects.EveryPlaceIsReached | src/addrman.cpp:10-43 | these bounds are met, and every position of a bucket is reached |
| AddrEffects.EveryBucketIsReached | src/addrman.cpp:10-34 | every bucket of either table is reached |
| AddrSerialize.Serialize | src/addrman.h:305-354 | the stream lists all new and tried entries in id order and each bucket's occupants by number |
| AddrLoad.EntriesFiled | src/addrman.h:387-427 | entries read from any stream without negative counts keep all conditions but for missing references and the map of addresses |
| AddrLoad.BucketsFiled | src/addrman.h:429-449 | reading the positions of the new table keeps that |
| AddrLoad.EntriesAddr | src/addrman.h:387-427 | every entry's address is known and leads to an entry with it; the map is an inverse if no address is repeated |
| AddrLoad.PrunedAddrOk | src/addrman.cpp:119-130 | deleting the entries without a place leaves an exact map of addresses if and only if it takes every entry with a repeated address |
| AddrSerialize.Prune | src/addrman.h:451-463 | exactly the new entries without a place go, and with them their addresses, whoever else has these |
| AddrSerialize.Unserialize | src/addrman.h:356-470 | succeeds exactly when all that is announced is there and within the limits; the result is valid if and only if no count is negative and all entries with a repeated address are pruned; without repeats, if and only if no count is negative |
| AddrSerialize.RepeatLosesAddress | src/addrman.h:387-463 | a stream with one address as new and as tried, which is accepted and gives an invalid manager |
| AddrSerialize.RepeatIsDropped | src/addrman.h:408-427 | a stream with one tried address twice, which gives a valid one |
| AddrSerialize.NegativeCountIsRead | src/addrman.h:377-426 | a stream with a negative count that is accepted, and gives an entry the id of an empty slot |
| AddrSerialize.OtherFormatIsRehashed | src/addrman.h:387-449 | positions of another version or bucket count are ignored; then a new entry is kept if and only if it took the slot of its first source |
| AddrSerialize.WrittenIsRead | src/addrman.h:387-449 | what Serialize writes is read as the same manager up to the ids |
| AddrSerialize.RoundTrip | src/addrman.h:305-470 | writing and reading any valid manager yields the same tables, reference counts and persistent fields up to a renaming of ids, and a valid manager |
| Coins.CachedRefines | src/coins.cpp:352-371 | caching what the view says changes nothing that is shown |
| Coins.SpentRefines | src/coins.cpp:422-436 | spending removes exactly the one output, whether the entry is erased or marked |
| Coins.AddedRefines | src/coins.cpp:373-402 | adding sets exactly the one output, and is refused exactly when an unspent one would be replaced unasked |
| Coins.MayAddIsExact | src/coins.h:544-551 | the flags stay right if and only if the caller loaded the output or allows an overwrite |
| Coins.NoneMisapplied | src/coins.cpp:482-491 | a child with right flags never triggers the misapplied-flag error |
| Coins.MergeRefines | src/coins.cpp:404-511 | after a batch write the parent shows what the child showed, and the parent's own flags are right |
| Coins.FlushToDatabase | src/txdb.cpp:195-260 | the database then holds exactly what the cache showed |
| Coins.CoinsStore.AddCoin | src/coins.cpp:373-402 | the cache with the new entry, or an error and no change |
| Coins.CoinsStore.SpendCoin | src/coins.cpp:422-436 | the cache without the coin, and whether it was there |
| Coins.UncachedRefines | src/coins.cpp:458-466 | dropping entries changes nothing shown, and drops exactly those asked for that have no flags |
| Coins.CoinsStore.BatchWrite | src/coins.cpp:468-511 | an error exactly when a flag is misapplied, otherwise the entry-by-entry merge |
| Coins.FetchRefines | src/coins.cpp:168-220 | reads tell what is shown, with the script when asked, change nothing shown, and leave the output loaded |
| Coins.Shard.GetCoinImpl | src/coins.cpp:168-220 | the answer and the cache, on every path |
| Coins.Shard.HaveCoin | src/coins.cpp:15-19 | true exactly when the output is shown |
| Coins.Shard.GetCoinWithScript | src/coins.cpp:32-42 | the coin shown, with its script: the assertion holds |
| Coins.Shard.AddCoin | src/coins.cpp:44-68 | under the contract, sets one output or refuses; unspendable outputs are skipped |
| Coins.Shard.SpendCoin | src/coins.cpp:70-84 | the output is gone, nothing else changes; a shown output is found and moved out whole, another one yields a spent coin or none |
| Coins.StepRefines | src/coins.cpp:15-84 | each operation does to what is shown what it does to a plain map, and its answer is right about that map |
| Coins.RunRefines | src/coins.cpp:15-84 | over every sequence of reads, additions, spendings and droppings in which an output is read before it is added, the shard shows what a plain map holds, and every answer and refusal on the way is right |
| Coins.UnreadAddMisleads | src/coins.h:544-551 | without that an output that was added and spent is shown again |
| CuckooCache.BitPackedFlags.constructor | src/cuckoocache.h:58-64 | room for every flag, all set |
| CuckooCache.BitPackedFlags.BitSet | src/cuckoocache.h:88-90 | exactly one flag becomes set |
| CuckooCache.BitPackedFlags.BitUnset | src/cuckoocache.h:99-101 | exactly one flag becomes unset |
| CuckooCache.CheckedKeeps | src/cuckoocache.h:262-294 | the epoch check leaves room for one more element within the bound, collects no element of the current epoch, and waits until an epoch could be full |
| CuckooCache.PutInserts | src/cuckoocache.h:383-390 | placing the element in hand in a free slot completes the insertion |
| CuckooCache.DisplacedCarries | src/cuckoocache.h:391-415 | exchanging it keeps live elements and epochs together with the element in hand |
| CuckooCache.StraightBack | src/cuckoocache.h:391-409 | hashes under which two exchanges undo each other |
| CuckooCache.NextLocMovesOn | src/cuckoocache.h:391-409 | the first exchange uses the second location; later the element goes straight back if and only if two of its hashes in a row lead to the slot |
| CuckooCache.Cache.constructor | src/cuckoocache.h:315-329 | a valid cache without live elements, of 2^depth slots, with epochs of 45 per cent of that in 32-bit arithmetic |
| CuckooCache.Cache.ComputeHashes | src/cuckoocache.h:223-232 | masking is taking remainders, so every location is in range |
| CuckooCache.Cache.EpochCheck | src/cuckoocache.h:262-294 | the state after counting down, ageing or waiting again |
| CuckooCache.Cache.PlaceOrSwap | src/cuckoocache.h:381-416 | one turn of the loop: into the first free slot, or no free slot and exchanged at the next location |
| CuckooCache.Cache.Displace | src/cuckoocache.h:381-416 | the first element of the chain with a free slot settles in its first free one; if none of the first depth_limit has one, the next is dropped |
| CuckooCache.DroppedIffNoneFits | src/cuckoocache.h:354-357 | an element is dropped if and only if none of the first depth_limit elements of the chain has a free slot |
| CuckooCache.DisplacementInserts | src/cuckoocache.h:381-416 | displacement adds the new element to the live ones and loses at most the dropped one |
| CuckooCache.SecondTurnSettles | src/cuckoocache.h:381-416 | if the element in the second slot has a free slot of its own, nothing is dropped |
| CuckooCache.Cache.Insert | src/cuckoocache.h:368-418 | an element in one of its slots is renewed there; any other goes in by displacement along the chain of elements in hand; the live set gains it and loses at most one; epochs stay with their elements; every element stays in one of its slots, once |
| CuckooCache.Cache.Contains | src/cuckoocache.h:446-457 | true exactly if one of its slots holds the element, so for every live element; erasing gives up exactly it, and keeps it findable until its slot is used |
| CuckooCache.RunBounded | src/cuckoocache.h:262-294 | in no run does the current epoch exceed epoch_size + max(1, epoch_size / 16) live elements |
| CuckooCache.RunRetains | src/cuckoocache.h:368-457 | an element stays live, and findable, until it is erased, dropped or aged away |
| CuckooCache.RunLasts | src/cuckoocache.h:262-418 | an element that is neither erased nor dropped outlasts epoch_size + 1 insertions, and is found throughout |
| RollingBloom.FastModBelow | src/bloom.cpp:258-260 | the reduced hash is in range |
| RollingBloom.CellsMeet | src/bloom.cpp:281-291 | two hashes choose the same bit if and only if they agree modulo 64 and in the pair of words that multiply-and-shift gives |
| RollingBloom.EveryCellIsChosen | src/bloom.cpp:281-291 | every bit of every pair of words is chosen by some hash, up to 2^26 pairs |
| RollingBloom.WithBit | src/bloom.cpp:282-291 | exactly one bit of the word is written |
| RollingBloom.WipeWords | src/bloom.cpp:269-277 | exactly the bit positions tagged with the generation are cleared, in all 64 positions at once |
| RollingBloom.WipedTag | src/bloom.cpp:263-278 | when a generation number comes round again, exactly the writes of three generations ago carry it |
| RollingBloom.Setup.RecentWindow | src/bloom.cpp:219-221 | this generation and the two before hold exactly the last 2 * nEntriesPerGeneration + nEntriesThisGeneration keys |
| RollingBloom.Setup.RecentShows | src/bloom.cpp:300-312 | a key of that window shows in all its cells, whatever was written over it since |
| RollingBloom.Setup.ShownIffCovered | src/bloom.cpp:300-312 | all cells of a key show if and only if each of its hashes meets one of a key of the window, in arithmetic on hashes alone |
| RollingBloom.RollingBloomFilter.constructor | src/bloom.cpp:210-250 | an empty filter with two generations holding at least nElements |
| RollingBloom.RollingBloomFilter.Reset | src/bloom.cpp:319-326 | an empty filter |
| RollingBloom.RollingBloomFilter.Wipe | src/bloom.cpp:269-277 | every cell carries the right tag for the new generation |
| RollingBloom.RollingBloomFilter.Insert | src/bloom.cpp:262-293 | every cell carries the tag of its last write within three generations |
| RollingBloom.RollingBloomFilter.Contains | src/bloom.cpp:300-312 | true if and only if each hash of the key meets a hash of one of the last 2 * nEntriesPerGeneration + nEntriesThisGeneration keys, modulo 64 and in its pair of words; so true for those keys, and false when one hash meets none |
| Arith256.BaseUint.constructor | src/arith_uint256.h:46-51 | the value of a 64-bit number |
| Arith256.BaseUint.AddAssign | src/arith_uint256.h:119-127 | addition modulo 2^BITS, also with itself |
| Arith256.BaseUint.MulAssign32 | src/arith_uint256.cpp:46-55 | multiplication modulo 2^BITS; the accumulator fits 64 bits |
| Arith256.BaseUint.MulAssign | src/arith_uint256.cpp:57-70 | multiplication modulo 2^BITS with the accumulator in 64 bits, and zero when the operand is the object itself |
| Arith256.SquareVanishes | src/arith_uint256.cpp:57-70 | a square vanishes modulo 2^2k if and only if the number vanishes modulo 2^k |
| Arith256.SquareInPlace | src/arith_uint256.cpp:57-70 | x *= x gives zero, which is right if and only if the low half of x is zero |
| Arith256.TwoTimesItself | src/arith_uint256.cpp:57-70 | two times itself gives zero |
| Arith256.BaseUint.Complement | src/arith_uint256.h:61-66 | 2^BITS - 1 - x |
| Arith256.BaseUint.Increment | src/arith_uint256.h:152-158 | adds one modulo 2^BITS |
| Arith256.BaseUint.Negate | src/arith_uint256.h:68-74 | 2^BITS - x modulo 2^BITS |
| Arith256.BaseUint.SubAssign | src/arith_uint256.h:129-132 | subtraction modulo 2^BITS, also with itself |
| Arith256.BaseUint.CompareTo | src/arith_uint256.cpp:102-109 | the order of the values |
| Arith256.BaseUint.ShiftLeft | src/arith_uint256.cpp:16-29 | multiplication by the power of two modulo 2^BITS, for every shift |
| Arith256.BaseUint.ShiftRight | src/arith_uint256.cpp:31-44 | division by the power of two, rounded down, for every shift |
| Arith256.BaseUint.GetLow64 | src/arith_uint256.h:260-263 | the value modulo 2^64 |
| Arith256.BaseUint.EqualTo | src/arith_uint256.cpp:111-118 | equality with a 64-bit number |
| Arith256.BaseUint.CountBits | src/arith_uint256.cpp:147-157 | the least number of bits that holds the value |
| Arith256.BaseUint.DivAssign | src/arith_uint256.cpp:72-100 | exact floor division, with the remainder in num; an error exactly for a zero divisor |
| Arith256.ValueUnique | src/arith_uint256.h:26-27 | limbs are determined by the value |
| LimbShifts.LeftIsTimes | src/arith_uint256.cpp:16-29 | placing the halves of each limb multiplies modulo 2^BITS |
| LimbShifts.RightIsDiv | src/arith_uint256.cpp:31-44 | placing the halves of each limb divides, rounding down |
| Compact.SetCompact | src/arith_uint256.cpp:177-194 | the value modulo 2^256; overflow exactly when mantissa * 256^(exponent - 3) reaches 2^256; negative exactly for a signed nonzero value |
| Compact.GetCompact | src/arith_uint256.cpp:196-217 | the packed form of the value at its own size; both assertions hold |
| Compact.PackFields | src/arith_uint256.h:273-289 | mantissa, exponent and sign are read back from a packed form |
| Compact.ExpandPack | src/arith_uint256.cpp:177-217 | unpacking a packed number drops exactly the bytes below the kept ones |
| Compact.CompactRoundTrip | src/arith_uint256.cpp:177-217 | the decoded number is below the original by less than the dropped bytes, never larger, and packs to the same form again |
| Compact.CompactAndBack | src/arith_uint256.cpp:177-217 | GetCompact, SetCompact, GetCompact: no overflow, only low bytes and the sign of zero are lost, and the form is the same again |
| Compact.TargetBelowMax | src/block_index.cpp:105-118 | a target that fits never equals 2^256 - 1, so target + 1 is never zero |
| Compact.GetBlockProof | src/block_index.cpp:105-118 | floor(2^256 / (target + 1)) for every valid target, zero otherwise, and never a division by zero |
| BlockIndex.InvertLowestOneIs | src/block_index.cpp:18-20 | clears the lowest one bit of any number |
| BlockIndex.SkipHeightEven | src/block_index.cpp:23-33 | an even height skips down by its lowest one bit |
| BlockIndex.SkipHeightOdd | src/block_index.cpp:23-33 | an odd height skips down by the two lowest one bits of the height before it, or to 1 |
| BlockIndex.SkipHeightBelow | src/block_index.cpp:23-33 | skips go strictly down |
| BlockIndex.AncestorOfAncestor | src/block_index.cpp:72-96 | an ancestor's ancestor is an ancestor |
| BlockIndex.TimeMaxGrows | src/block_index.h:992-992 | the latest time so far never goes down and is at least every ancestor's time |
| BlockIndex.Block.constructor | src/block_index.h:968-993 | a well-built entry: height, skip to the ancestor at the skip height, latest time, soft rejection from the parent |
| BlockIndex.Block.GetAncestor | src/block_index.cpp:72-96 | the block that following pprev would reach; null exactly out of range |
| BlockIndex.LastCommonAncestor | src/block_index.cpp:147-163 | the deepest common ancestor, null exactly when there is none; the assertion holds |
| ActiveChain.Chain.ContainsIs | src/chain.h:53-56 | the chain's blocks are the tip and its ancestors |
| ActiveChain.Chain.SetTip | src/chain.cpp:11-25 | every height holds the new tip's ancestor, despite the early stop |
| ActiveChain.Chain.FindFork | src/chain.cpp:58-69 | the highest block shared with the chain; null exactly when there is none |
| ActiveChain.Chain.LowerBound | src/chain.cpp:71-78 | the first block whose latest time so far reaches the argument |
| ActiveChain.Chain.FindEarliestAtLeast | src/chain.cpp:71-78 | the lowest block whose own time reaches the argument; null exactly when there is none |
| Descendants.Build | src/blockindex_with_descendants.h:161-203 | the items are the root and the blocks above it up to the height, with every parent link there can be; the assertions hold |
| Descendants.Next | src/blockindex_with_descendants.h:99-135 | the first child, or the next sibling of the nearest item above that has one |
| Descendants.PreOrderFollows | src/blockindex_with_descendants.h:99-135 | repeated calls run through the pre-order |
| Descendants.PreOrderMembers | src/blockindex_with_descendants.h:78-98 | the pre-order lists exactly what is at or below an item |
| Descendants.UnderIsDescendant | src/blockindex_with_descendants.h:161-203 | the items below the root are exactly its descendants |
| Descendants.TraversalVisitsAll | src/blockindex_with_descendants.h:78-135 | the traversal ends and visits exactly the root's descendants up to the height, once each, parents first |
| SoftRejection.RegionIsImplied | src/block_index.h:1034-1103 | without other marks, the marks above a block are those its mark implies |
| SoftRejection.ExtendIndex | src/block_index.h:968-993 | a block added to any chain keeps all marks of the tree consistent, and changes none |
| SoftRejection.UpdateKeeps | src/block_index.h:614-653 | updating far enough up restores "parent > 0 implies child = parent - 1" on the whole tree |
| SoftRejection.UpdateKeepsExplicit | src/block_index.h:614-653 | no other block's own mark is gained or lost |
| SoftRejection.UpdateBack | src/validation.cpp:5253-5268 | updating with the old number restores every mark |
| SoftRejection.SetRootSoftRejectedFor | src/validation.cpp:5189-5201 | the root and its descendants up to the height get the marks implied, and no other block changes |
| SoftRejection.SoftRejectBlock | src/validation.cpp:5205-5268 | refuses exactly the listed cases and changes nothing then; a failed disconnect restores all marks; otherwise the marks up to the 32-bit sum are updated, and only one block's own mark changes if and only if that sum fits or no block extends this one |
| SoftRejection.AcceptSoftRejectedBlock | src/validation.cpp:5316-5350 | only a block's own mark can be lowered or removed; no other mark changes if and only if height plus old mark fits 32 bits or no block extends this one |
| SoftRejection.RemarkedIff | src/validation.cpp:5239-5239 | updating up to a 32-bit sum leaves the marks consistent and other blocks' own marks alone if and only if the sum fits or no block extends this one |
| SoftRejection.StepSound | src/validation.cpp:5205-5350 | with height plus mark within 32 bits everywhere, a new block, a rejection with a sum that fits and an acceptance keep that and the marks consistent |
| SoftRejection.RunSound | src/validation.cpp:5205-5350 | over every run of such calls from an empty index the marks are consistent, each call changes one block's own mark only, and no sum wraps round |
| SoftRejection.LargestCountMarksOneBlock | src/validation.cpp:5239-5253 | at height 1 with a child, 2^31 - 1 blocks: accepted, the child unmarked, the marks inconsistent |
| Radix.ConvertBack | src/base58.cpp:22-119 | changing the base and back is the identity, leading zeros included |
| Radix.DigitsFit | src/base58.cpp:33-35 | how many digits of one base always suffice for another |
| Base58.EncodeFits | src/base58.cpp:86-89 | 138/100 digits per byte and one more always suffice |
| Base58.DecodeFits | src/base58.cpp:33-36 | 733/1000 bytes per character and one more always suffice |
| Base58.AlphabetIs | src/base58.cpp:18-20 | the alphabet is exactly the digits and letters but 0, O, I and l, in ascending order |
| Base58.SpaceIs | src/base58.cpp:24-26 | the six white-space characters |
| Base58.MultiplyAdd | src/base58.cpp:92-106 | multiplies the buffer and adds a digit; nothing is carried out when the result fits |
| Base58.EncodeBase58 | src/base58.cpp:78-119 | the text of the bytes in base 58; the assertion holds |
| Base58.DecodeBase58 | src/base58.cpp:22-76 | fails exactly for a character outside the alphabet or text after the word; otherwise the bytes; the assertion holds |
| Base58.DecodeOfEncode | src/base58.cpp:22-126 | decoding an encoding gives the bytes back, for every byte string |
| Base58.EncodeOfDecode | src/base58.cpp:22-126 | encoding a decoded string gives the word it held, without surrounding space |
| CompactBlocks.AscendingIffSmall | src/blockencodings.cpp:95-121 | indices increase strictly if and only if no offset is 2^32 - 1 |
| CompactBlocks.TwoForOneSlot | src/blockencodings.cpp:95-121 | offsets 0 and 2^32 - 1 are accepted, and the second transaction replaces the first |
| CompactBlocks.PutAtIs | src/blockencodings.cpp:95-121 | then each prefilled transaction keeps its slot |
| CompactBlocks.PlacePrefilled | src/blockencodings.cpp:95-121 | never out of range; invalid exactly for a null transaction or an index beyond what the identifiers cover |
| CompactBlocks.MapShortIds | src/blockencodings.cpp:125-162 | never out of range; succeeds if and only if the identifiers are distinct and no bucket of the maps built is crowded; then the k-th identifier owns the k-th empty slot |
| CompactBlocks.TakeKeeps | src/blockencodings.cpp:164-215 | filling and clearing keep slots matched to identifiers and the counter exact |
| CompactBlocks.ExtraCountExact | src/blockencodings.cpp:190-223 | extra_count is the slots gained less the slots cleared in the loop over the extra transactions, modulo 2^64 |
| CompactBlocks.ClearedIffClash | src/blockencodings.cpp:190-223 | a filled slot is cleared if and only if an extra transaction with its identifier and another hash is looked at |
| CompactBlocks.ExtraCountIffNoneEvicted | src/blockencodings.cpp:160-223 | extra_count is right if and only if no mempool transaction was driven out |
| CompactBlocks.ExtraCountWraps | src/blockencodings.cpp:190-214 | one such pair of transactions, which leaves the slot empty and the counter at 2^64 - 1 |
| CompactBlocks.PartiallyDownloadedBlock.InitData | src/blockencodings.cpp:80-223 | the status in every case; on success the slots and counters that the loops give, every filled slot with its identifier, mempool_count exact; from an honest sender exactly the transactions at hand are found |
| CompactBlocks.PartiallyDownloadedBlock.FillBlock | src/blockencodings.cpp:239-265 | the missing transactions go to the empty slots in order, and there must be exactly as many |
| CompactBlocks.Rebuilt | src/blockencodings.cpp:239-265 | without false matches the sender's missing transactions complete exactly the sender's block |
| CompactBlocks.MakeCompact | src/blockencodings.cpp:19-30 | the compact form of a block |
| CompactBlocks.CompactDescribes | src/blockencodings.cpp:19-30 | it describes the block when no two identified transactions share an identifier |
| CompactBlocks.WriteIndices | src/blockencodings.h:72-77 | the distances between indices, in 32 bits |
| CompactBlocks.ReadIndices | src/blockencodings.h:49-71 | reads exactly the announced number and recovers the indices, or fails exactly when they cannot be |
| CompactBlocks.RecoverWritten | src/blockencodings.h:44-80 | written lists are recovered if and only if increasing, except after 2^32 - 1 |
| CompactBlocks.WrittenRecover | src/blockencodings.h:44-80 | writing what was read gives the same distances |
| CompactExchange.ReconstructedShows | src/blockencodings.cpp:160-223 | for any mempool and extra transactions: a slot holds the first match of its identifier, unless the mempool has two or a later match has another hash; each list is looked at up to the first transaction after which no slot is empty |
| CompactExchange.MergedIffRight | src/blockencodings.cpp:239-265 | completing with the sender's transactions gives the block if and only if no slot holds another transaction |
| CompactExchange.FalseMatchStays | src/blockencodings.cpp:164-187 | one match that is not the block's transaction, which stays |
| CompactExchange.ClearedIsRight | src/blockencodings.cpp:190-223 | the same with the right transaction after it: the slot is emptied and the list comes out right |
| CompactExchange.MakeRequest | src/net/net_processing.cpp:3702-3707 | asks for exactly the empty slots, in order |
| CompactExchange.RequestRecovers | src/blockencodings.h:44-80 | every such request survives its differential coding |
| CompactExchange.Answer | src/net/net_processing.cpp:2691-2703 | the transactions at the requested indices, or nothing exactly when an index is out of bounds |
| CompactExchange.AnswerIsMissing | src/net/net_processing.cpp:2691-2703 | the answer to a request is what the block lacks |
| CompactExchange.SenderIsHonest | src/blockencodings.cpp:19-30 | a compact form without clashing identifiers meets every demand of reconstruction |
| CompactExchange.SenderMapsWell | src/blockencodings.cpp:19-30 | a sender's form is never invalid, and is taken if and only if its identifiers are distinct and no bucket is crowded |
| CompactExchange.Complete | src/net/net_processing.cpp:3702-3707 | request, coding, answer and completion give the available transactions, with the sender's in the empty slots |
| CompactExchange.Exchange | src/net/net_processing.cpp:3686-3707 | fails if and only if identifiers of the block are equal or a bucket of the maps built is crowded; otherwise the list is the block if and only if no slot ends up with another transaction, which is so when no identifiers clash |

## Left out

- CheckQueueProof.WaitTellsTheTruth: does not cover destructors running in mid-session or checks that throw; `mQuit` and thread creation are not modelled.
- Contents of `failedChecks`, thread names and scheduling fairness; the pool's destructor.
- CheckQueueGuards.RunIsSafe: one caller at a time on each guard, and no use of a guard that has been destroyed, as the code demands of its users.
- 32-bit overflow of `nTodo`, of address-manager ids, of times, and of block heights themselves.
- `Attempt_`, `Connected_`, `SetServices_`, `Select_` and `GetChance` of the address manager; `Clear` on a manager that is not empty.
- AddrSerialize.RoundTrip: the stream is a record of fields and lists, not bytes; older format versions are only read, not written.
- `cachedCoinsUsage`, `BatchWriteUnchecked`, best-block tracking and the splitting of a cache into several shards; partial database batches.
- Coins.FlushToDatabase: one batch with all entries; partial batches and best-block marks are not modelled.
- Coins.RunRefines: a view may say that an output is spent, but then gives the empty coin, as the views of the node do.
- The memory ordering of the cuckoo cache's atomic flags, and erasures concurrent with reads.
- CuckooCache.Cache.constructor: the depth limit is a parameter, because the logarithm is taken in floating point.
- RollingBloom.RollingBloomFilter.constructor: the number of hash functions and the size of the table are parameters, and nElements is between 1 and 2^32 - 2; for 0 and 2^32 - 1 the generation and the table have size zero.
- `getdouble`, hexadecimal conversion, the bitwise operators and `--` of the 256-bit class.
- CompactBlocks.PlacePrefilled: for fewer than 2^32 transactions, like InitData.
- CompactBlocks.PartiallyDownloadedBlock.InitData: for fewer than 2^32 transactions; an extra transaction is paired with its own hash, and a mempool holds each transaction once.
- CompactExchange.Answer: the full-block reply above a configured percentage, the download quota, and readers that stream from disk are not modelled.
- `CheckBlock`, which FillBlock calls at the end, and the byte layout of the compact-block messages.
- BlockIndex.Block.constructor: without chain work and soft consensus freezing.
- SoftRejection.SoftRejectBlock: disconnecting tips is a yes-or-no parameter; a sum that overflows wraps round, where C++ leaves it undefined.
- SoftRejection.AcceptSoftRejectedBlock: the same for height plus old mark.
- `GetLocator`, soft consensus freezing, chain work along the tree, and disconnecting tips after a soft rejection, which is a yes-or-no parameter.
- Base58.DecodeBase58: `size`, `zeroes` and `length`, which are of type `int`, are unbounded, as in EncodeBase58.
- Base58Check, addresses and keys; amount compression; disk, database and network code.
