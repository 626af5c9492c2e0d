# Verification of the DeFi Blockchain node's in-memory components

This project models the stateful and arithmetic core of the node in Dafny and proves what those
components promise: that their invariants survive every run, that fast structures agree with plain
ones, that what is encoded is decoded, and that nothing is lost on the way. `dafny verify
dfyconfig.toml` checks everything.

Each component that the source updates in place is a class with the same fields and loops. Its
methods are proved to compute functions on values, and the theorems are about those functions, so
they hold of the object. Hash functions, random numbers, clock readings and outside oracles are
parameters: every theorem holds for all of them. Where a theorem needs a hash without collisions,
it says so.

| component | files | main results |
|---|---|---|
| address manager | `AddrManState`, `AddrManInvariant`, `AddrManOperations`, `AddrManRuns`, `AddrManCheck`, `AddrManDisk`, `AddrManRoundTrip`, `AddrMan` | consistent after every run; the self-check is the invariant; saving and loading is a renaming of ids |
| coin cache stack | `Coins`, `CoinsRefinement`, `CoinsViewCache` | caches of any depth cannot be told from plain maps |
| check queue | `CheckQueue` | right verdicts and no lost wake-up in every interleaving; Wait returns |
| block assembly | `Mempool`, `BlockAssembly`, `Scores`, `Miner` | valid order, limits kept, figures never too small, the best score first, every omission accounted for |
| Merkle blocks | `Merkle`, `PartialMerkle`, `ByteBits`, `MerkleBlock` | round trip, soundness against any data, size bounds |
| rolling Bloom filter | `Words`, `RollingBloom` | equal to a plain Bloom filter over the last three generations |
| Bech32 | `Bech32Checksum`, `Bech32Field`, `Bech32Errors`, `Bech32` | decoding inverts encoding exactly; six-symbol bursts and three errors within 1023 symbols are detected |
| Base58 | `Radix`, `Base58Bounds`, `Base58` | buffers always suffice; both inverses |
| 256-bit arithmetic | `Limbs`, `LimbBits`, `Compact`, `ArithUint256` | limb loops equal integer arithmetic; compact targets round down to the nearest |
| block index | `SkipHeights`, `Chain` | skip pointers equal the parent walk, in at most 110 steps up to height 2^18; forks, tips and locators |
| block filters | `GolombRice`, `GcsFilter` | matching is exact on hashes; built filters reload |
| compact blocks | `CompactBlocks` | the rebuilt block is the block |
| cuckoo cache | `CuckooCache` | entries are conserved with their epochs, but for at most one |

`Wrappers`, `Sets` and `Totals` hold what several of them share.

Inside MakeTried, ClearNew and Add the address manager passes through states in which some entries
have no slot and the counter of new entries lags. `AddrManInvariant.Loose` is the invariant with
those entries listed as *floating*; the lemmas of that module carry it through every step.

Where the code and its comments disagree, the model follows the code:

- `src/merkleblock.h:47` bounds the flag bits by 2*N-1. A matched node with a single child needs one
  more; `PartialMerkle.FlagBits` gives the exact condition and `PartialMerkle.FlagBitsCanExceed` an
  input.
- `src/merkleblock.h:34` bounds the size of a message; `PartialMerkle.SizeFits` says for which selections it
  holds, and `PartialMerkle.SizeCanExceed` and `PartialMerkle.SizeCanExceedByFlags` give inputs on which it
  does not.
- `src/cuckoocache.h:416-430` describes the first displaced place as the first of the eight; the
  expression yields the second (`CuckooCache.FirstPlace`). It also says that the element just put in is
  not moved again; `CuckooCache.MovesAgain` gives the exact condition and `CuckooCache.CanMoveAgain` a
  hash on which it is.
- `src/miner.h:122` subtracts the paid fee and `src/miner.cpp:351` the modified fee, so modified fees
  drift for prioritised transactions; `BlockAssembly.FeesStayExact` gives the exact condition and
  `BlockAssembly.FeesCanDrift` an input.
- `src/miner.cpp:468` says that everything else has a lower fee rate when the selection ends at a cheap
  package. It has a lower score, which is a lower rate of its package or of its own transaction;
  `Scores.ScoreBoundsRateIff` gives the exact condition and `Scores.RateCanBeHigher` an input.
- Flushing a cache that never asked for its best block can change it; `CoinsRefinement.FlushBestBlock`
  gives the exact condition and `CoinsRefinement.FlushCanLoseBestBlock` an input.
- SpendCoin also returns true for an entry that is spent already (`CoinsRefinement.SpendCoinKeeps`,
  `CoinsRefinement.SpendCanAnswerTwice`).
- Add in the address manager also returns true for an entry that it deleted again;
  `AddrManOperations.AddStores` gives the exact condition and `AddrManOperations.AddCanForget` an input.
- Clear and Unserialize in the address manager keep the pending collisions of before; when that is
  harmless is said by `AddrManRuns.ClearedInv` and `AddrManRoundTrip.ReloadedInv`.
- The self-check of the address manager fails after a call that records a time before the epoch;
  `AddrManCheck.EveryRunPasses` gives the exact condition and `AddrManCheck.EarlyGoodFails` an input.
- The count of extra transactions of a compact block can fall below zero, where the source keeps an
  unsigned number; `CompactBlocks.GrowthIsNegative` gives the exact condition and
  `CompactBlocks.ExtraCanFallBelow` an input.

## Model

| member | source | states |
|---|---|---|
| AddrManRuns.EveryRunIsConsistent | src/addrman.cpp:398-472 | after every run of Add, Good, Attempt, Connected, SetServices, GetAddr, ResolveCollisions and SelectTriedCollision on a fresh manager: random order and positions are inverse bijections, the address index is a bijection onto the ids, reference counts equal slot counts (1 to 8 if new, 0 if tried), tried entries sit exactly once in their computed slot, both counters are exact, and every pending collision that is still known has an occupied tried slot |
| AddrManRuns.StepKeeps | src/addrman.cpp:189-618 | every single call keeps that invariant, for all clock readings and random numbers |
| AddrManRuns.RunKeeps | src/addrman.cpp:189-618 | so does every sequence of calls from any consistent state |
| AddrManRuns.LaterRunsAreConsistent | src/addrman.h:300-454 | a manager saved after any run and loaded without pending collisions is consistent after any later run |
| AddrManRuns.ClearedInv | src/addrman.h:456-476 | a cleared manager is consistent if and only if no collisions were pending |
| AddrManRuns.CollisionsOutliveClear | src/addrman.cpp:593-618 | otherwise the next address can get the id of a pending collision, and SelectTriedCollision reads a free tried slot |
| AddrManRuns.RunTriedGrows | src/addrman.cpp:141-187 | a slot of the tried table, once occupied, stays occupied in every continuation |
| AddrManRuns.GoodMoves | src/addrman.cpp:189-253 | Good on a known new address that need not wait puts it into its tried slot; the evicted entry is back among the new ones; at most one entry is forgotten, and never a tried one |
| AddrManRuns.GoodWaits | src/addrman.cpp:214-246 | otherwise nothing moves, and a waiting address is recorded as a collision while fewer than ten are pending |
| AddrManRuns.TriedBucketsOfGroup | src/addrman.cpp:11-16 | addresses of one network group reach at most 8 tried buckets |
| AddrManRuns.NewBucketsOfSourceGroup | src/addrman.cpp:18-24 | sources of one network group reach at most 64 new buckets |
| AddrManInvariant.SwapKeeps | src/addrman.cpp:92-110 | swapping two positions keeps the loosened invariant |
| AddrManInvariant.DeleteKeeps | src/addrman.cpp:112-124 | deleting an entry without slots keeps it, with one floating entry less |
| AddrManInvariant.ClearNewKeeps | src/addrman.cpp:126-139 | clearing a slot keeps it, even between the steps of MakeTried, and deletes the holder with its last reference |
| AddrManInvariant.LeaveNewKeeps | src/addrman.cpp:143-153 | taking an entry out of all new buckets leaves exactly that entry floating and the counter one behind |
| AddrManInvariant.LeaveTriedKeeps | src/addrman.cpp:161-169 | evicting the holder of a tried slot leaves it floating too |
| AddrManInvariant.BackToNewKeeps | src/addrman.cpp:171-181 | giving the evicted entry the new slot of its source settles it again |
| AddrManInvariant.EnterTriedKeeps | src/addrman.cpp:182-187 | entering the free tried slot restores the full invariant |
| AddrManInvariant.PutSlotKeeps | src/addrman.cpp:315-318 | taking a free new slot with one more reference keeps it |
| AddrManOperations.MakeTriedKeeps | src/addrman.cpp:141-187 | MakeTried as a whole keeps the invariant |
| AddrManOperations.MakeTriedEffect | src/addrman.cpp:141-187 | only the slot of the entry changes in the tried table; the evicted entry survives as a new one; at most the holder of the new slot it takes is forgotten |
| AddrManOperations.GoodKeeps | src/addrman.cpp:189-253 | Good keeps the invariant |
| AddrManOperations.AddKeeps | src/addrman.cpp:255-326 | Add keeps the invariant, also when the new entry is deleted again at once |
| AddrManOperations.PlaceNewKeeps | src/addrman.cpp:304-324 | the last part of Add keeps the loosened invariant and settles the entry |
| AddrManOperations.PlaceNewSurvive | src/addrman.cpp:304-324 | it touches no tried slot and forgets at most the displaced holder or the new entry |
| AddrManOperations.AddStores | src/addrman.cpp:255-326 | Add of a routable unknown address returns true, and the address is known afterwards if and only if its new slot was free or its holder terrible or multiply referenced |
| AddrManOperations.AddCanForget | src/addrman.cpp:319-325 | two announcements of which the second is reported as new and forgotten |
| AddrManOperations.AttemptKeeps | src/addrman.cpp:328-348 | Attempt keeps the invariant |
| AddrManOperations.ConnectedKeeps | src/addrman.cpp:496-514 | Connected keeps the invariant |
| AddrManOperations.SetServicesKeeps | src/addrman.cpp:516-532 | SetServices keeps the invariant |
| AddrManOperations.GetAddrResult | src/addrman.cpp:475-494 | GetAddr only reorders; it returns addresses of different entries that are not terrible, as many as exist up to 23 percent and 2500 |
| AddrManOperations.ResolveKeeps | src/addrman.cpp:534-591 | ResolveCollisions keeps the invariant |
| AddrManOperations.SelectCollisionResult | src/addrman.cpp:593-618 | SelectTriedCollision keeps the invariant and returns a tried entry for every pending collision that is still known |
| AddrManCheck.PassesIsInvariant | src/addrman.cpp:398-472 | the self-check passes if and only if the invariant holds with sane statistics and a key, up to the id counter, stale index addresses and the address of entry 0, which it does not look at |
| AddrManCheck.EveryRunPasses | src/addrman.cpp:398-472 | on a fresh manager the self-check passes before a run and after each of its calls if and only if there is a key and every call is timely: Good records a time after the epoch, or the epoch itself for an entry that stays new, and Attempt a time not before it |
| AddrManCheck.StepStats | src/addrman.cpp:189-618 | a call keeps the statistics sane if and only if it is timely for the entry it finds; ResolveCollisions always does |
| AddrManCheck.GoodStats | src/addrman.cpp:204-252 | the exact condition for Good |
| AddrManCheck.ResolveStepStats | src/addrman.cpp:534-591 | a collision is only resolved by Good at a time after the epoch |
| AddrManCheck.LateTimesAreTimely | src/addrman.cpp:189-348 | times after the epoch are always timely |
| AddrManCheck.EarlyGoodFails | src/addrman.cpp:426-429 | an address found good before the epoch makes the self-check fail |
| AddrManCheck.ConsistentPasses | src/addrman.cpp:398-472 | for a consistent manager the self-check is about the statistics and the key alone |
| AddrManCheck.FaultFails | src/addrman.cpp:398-472 | every nonzero code names a fault that makes the check fail |
| AddrManObject.AddrMan.Check | src/addrman.cpp:398-472 | returns 0 if and only if all tests pass, otherwise the code of a fault that is there; changes nothing but the index, which gains the looked-up addresses it lacked |
| AddrManObject.AddrMan.CheckEntry | src/addrman.cpp:406-430 | the code of the first fault of one entry, and the index after its lookup |
| AddrManObject.AddrMan.CheckTried | src/addrman.cpp:437-449 | nothing is left over if and only if the tried table is right and no tried entry has the id -1 |
| AddrManObject.AddrMan.CheckNew | src/addrman.cpp:451-462 | nothing is left over only if all reference counts are exact and no new entry has the id -1; otherwise one of these fails |
| AddrManObject.AddrMan.constructor | src/addrman.h:478-482 | a new manager is the empty state and consistent |
| AddrManObject.AddrMan.Clear | src/addrman.h:456-476 | empties all tables but keeps the pending collisions, as the source does |
| AddrManObject.AddrMan.Find | src/addrman.cpp:67-78 | the id of an address, or nothing |
| AddrManObject.AddrMan.Create | src/addrman.cpp:80-90 | the new entry is last in the random order and in the index |
| AddrManObject.AddrMan.SwapRandom | src/addrman.cpp:92-110 | computes the swap; its assertions hold |
| AddrManObject.AddrMan.Delete | src/addrman.cpp:112-124 | computes the deletion; its assertions hold |
| AddrManObject.AddrMan.ClearNew | src/addrman.cpp:126-139 | computes the clearing, also in the loosened states |
| AddrManObject.AddrMan.MakeTried | src/addrman.cpp:141-187 | the loops compute MakeTried and keep the invariant; its assertions hold |
| AddrManObject.AddrMan.LeaveNew | src/addrman.cpp:143-153 | the loop over all buckets leaves the new table and counts the references down to zero |
| AddrManObject.AddrMan.Evict | src/addrman.cpp:159-181 | computes the eviction of a tried entry |
| AddrManObject.AddrMan.BackToNew | src/addrman.cpp:171-181 | computes the return of the evicted entry |
| AddrManObject.AddrMan.EnterTried | src/addrman.cpp:182-187 | computes the entry into the tried slot |
| AddrManObject.AddrMan.Good | src/addrman.cpp:189-253 | computes Good and keeps the invariant |
| AddrManObject.AddrMan.FindNewBucket | src/addrman.cpp:218-228 | the search from any random start finds a new bucket of the entry if and only if there is one |
| AddrManObject.AddrMan.Add | src/addrman.cpp:255-326 | computes Add and its result and keeps the invariant; a new address is known afterwards if and only if its new slot was open |
| AddrManObject.AddrMan.UpdateKnown | src/addrman.cpp:269-297 | what Add does with a known entry, and when it may get one more reference |
| AddrManObject.AddrMan.Enter | src/addrman.cpp:298-302 | a new entry with the penalty taken off its time, floating until it is placed |
| AddrManObject.AddrMan.PlaceNew | src/addrman.cpp:304-324 | computes the placement |
| AddrManObject.AddrMan.Attempt | src/addrman.cpp:328-348 | computes Attempt and keeps the invariant |
| AddrManObject.AddrMan.Connected | src/addrman.cpp:496-514 | computes Connected and keeps the invariant |
| AddrManObject.AddrMan.SetServices | src/addrman.cpp:516-532 | computes SetServices and keeps the invariant |
| AddrManObject.AddrMan.GetAddr | src/addrman.cpp:475-494 | the shuffle computes GetAddr and keeps the invariant |
| AddrManObject.AddrMan.ResolveCollisions | src/addrman.cpp:534-591 | the loop computes ResolveCollisions and keeps the invariant |
| AddrManObject.AddrMan.ResolveOne | src/addrman.cpp:536-590 | one round of it |
| AddrManObject.AddrMan.SelectTriedCollision | src/addrman.cpp:593-618 | computes the selection; the tried slot it reads is occupied |
| AddrManRoundTrip.RoundTrip | src/addrman.h:300-454 | loading what a consistent manager saved succeeds and loses neither a tried nor a new entry, whatever collisions the loader has pending |
| AddrManRoundTrip.ReloadedIsRenaming | src/addrman.h:300-454 | the loaded manager is the saved one with ids renamed: key, counters and both tables slot for slot; entries keep all but the two attempt times, which are not saved |
| AddrManRoundTrip.ReloadedInv | src/addrman.h:300-454 | it satisfies the whole invariant if and only if the pending collisions of the loader are at most ten and each is the number of an entry whose tried slot is occupied; always if there are none |
| AddrManRoundTrip.SameFile | src/addrman.h:300-348 | the file does not depend on the pending collisions |
| AddrManRoundTrip.NewCountFits | src/addrman.h:371-373 | a consistent manager never trips the limit on new entries |
| AddrManRoundTrip.TriedCountFits | src/addrman.h:375-377 | nor the one on tried entries |
| AddrManObject.AddrMan.Serialize | src/addrman.h:300-348 | the loops write that file; the assertions on the counters hold |
| AddrManObject.AddrMan.Unserialize | src/addrman.h:350-454 | loads any file as specified and refuses exactly where the source throws; a file of a consistent manager is loaded without loss, into a valid manager if and only if the pending collisions fit it |
| AddrManObject.AddrMan.LoadFile | src/addrman.h:355-448 | the loops compute the load |
| AddrManObject.AddrMan.UnserializeTables | src/addrman.h:379-448 | the part after the header |
| AddrManObject.AddrMan.WriteEntries | src/addrman.h:314-333 | entries in ascending order, numbered from zero |
| AddrManObject.AddrMan.WriteBucket | src/addrman.h:334-347 | the size and the entry numbers of one bucket |
| AddrManObject.AddrMan.ReadNewEntries | src/addrman.h:379-397 | reads the new entries |
| AddrManObject.AddrMan.LoadNewEntry | src/addrman.h:381-395 | one of them, placed by its source when the table cannot be used |
| AddrManObject.AddrMan.ReadTriedEntries | src/addrman.h:399-418 | reads the tried entries and counts those lost |
| AddrManObject.AddrMan.LoadTriedEntry | src/addrman.h:402-416 | one of them, lost if and only if its slot is taken |
| AddrManObject.AddrMan.ReadNewTable | src/addrman.h:420-436 | reads the new table |
| AddrManObject.AddrMan.ReadBucket | src/addrman.h:422-435 | one bucket of it |
| AddrManObject.AddrMan.PruneEntries | src/addrman.h:438-448 | deletes the new entries without a reference |
| CoinsRefinement.RunRefines | src/coins.cpp:42-219 | every allowed run of lookups, AddCoin, SpendCoin, Uncache, Flush at any level, and opening or dropping caches, on a stack of any depth, goes through without a throw and gives the answers, spent coins included, and the maps of the run on plain maps |
| CoinsRefinement.StepRefines | src/coins.cpp:42-219 | one operation of such a run |
| CoinsRefinement.AnswerIsView | src/coins.cpp:42-66 | a lookup answers what the plain map of its level says |
| CoinsRefinement.FetchedKeeps | src/coins.cpp:42-57 | lookups fill caches on the way without changing any view |
| CoinsRefinement.AddCoinKeeps | src/coins.cpp:68-87 | AddCoin of an absent coin, or with overwriting allowed, does not throw and adds the coin to the top map alone |
| CoinsRefinement.SpendCoinKeeps | src/coins.cpp:100-114 | SpendCoin takes the coin out of the top map alone; it returns true exactly if the coin is there or the cache holds a spent entry for it, and moves out the coin, or a spent one |
| CoinsRefinement.SpendCanAnswerTwice | src/coins.cpp:100-114 | a coin for which SpendCoin returns true twice |
| CoinsRefinement.UncacheKeeps | src/coins.cpp:212-219 | Uncache changes no view |
| CoinsRefinement.MergeViews | src/coins.cpp:147-203 | writing a child into its base never throws, keeps the FRESH meaning, and the merged base over its own base is the child over both |
| CoinsRefinement.WriteViews | src/txdb.cpp:108-132 | written into the database, the child becomes the database map |
| CoinsRefinement.FlushKeeps | src/coins.cpp:205-210 | Flush does not throw; the base stands for what the flushed cache stood for, and no other view changes |
| CoinsRefinement.PushKeeps | src/coins.cpp:36 | a new cache on top stands for what is below |
| CoinsRefinement.DropKeeps | src/coins.h:265-270 | dropping the top cache leaves all views below |
| CoinsRefinement.FlushBestBlock | src/coins.cpp:205-210 | unless the database asserts, Flush keeps the best block of its level if and only if the cache had one, or the base cache had none of its own or the one below it |
| CoinsRefinement.FlushCanLoseBestBlock | src/coins.cpp:205-210 | a stack on which it does not |
| CoinsViewCache.CoinsStack.constructor | src/coins.cpp:36 | an empty stack over a database is valid |
| CoinsViewCache.CoinsStack.Push | src/coins.cpp:36 | a new empty cache on top changes no view and has no usage |
| CoinsViewCache.CoinsStack.Drop | src/coins.cpp:36 | dropping the top cache changes no view below it |
| CoinsViewCache.CoinsStack.FetchCoin | src/coins.cpp:42-57 | computes the lookup through all levels, with the memory usage exact |
| CoinsViewCache.CoinsStack.GetCoin | src/coins.cpp:59-66 | returns the unspent coin of its level, or nothing |
| CoinsViewCache.CoinsStack.HaveCoin | src/coins.cpp:127-130 | true if and only if the top map has the coin |
| CoinsViewCache.CoinsStack.AccessCoin | src/coins.cpp:118-125 | the coin of the top map, or a spent one |
| CoinsViewCache.CoinsStack.AddCoin | src/coins.cpp:68-87 | computes AddCoin, refuses exactly where the source throws, keeps the memory usage exact, and loses the usage of the entry when it throws |
| CoinsViewCache.CoinsStack.SpendCoin | src/coins.cpp:100-114 | computes SpendCoin, with the memory usage exact |
| CoinsViewCache.CoinsStack.AddCoins | src/coins.cpp:89-98 | computes the loop with its throw; if the caller looked, or is right that nothing is overwritten, nothing is thrown and exactly the spendable outputs enter the top map |
| CoinsViewCache.AddOutputsKeeps | src/coins.cpp:89-98 | that the loop does so from every output on |
| CoinsViewCache.CoinsStack.HaveInputs | src/coins.cpp:237-247 | true if and only if all inputs are in the top map, or for a coinbase |
| CoinsViewCache.CoinsStack.GetValueIn | src/coins.cpp:225-235 | the sum of the values of the inputs in the top map |
| CoinsViewCache.CoinsStack.Uncache | src/coins.cpp:212-219 | computes Uncache, with the memory usage exact |
| CoinsViewCache.CoinsStack.BatchWrite | src/coins.cpp:147-203 | the loop, in any order, merges the child; it fails exactly where the source throws |
| CoinsViewCache.CoinsStack.WriteEntry | src/coins.cpp:156-196 | one dirty entry, in all flag cases |
| CoinsViewCache.CoinsStack.Flush | src/coins.cpp:205-210 | computes Flush; the flushed cache is empty and its usage zero |
| CheckQueue.EveryRunIsRight | src/checkqueue.h:66-158 | in every interleaving, nTodo is the queue plus all unfinished batches, and every Wait returned true if and only if all checks added since the one before are true |
| CheckQueue.NextKeeps | src/checkqueue.h:66-158 | every step of any thread keeps the invariant |
| CheckQueue.RunKeeps | src/checkqueue.h:66-158 | so does every run |
| CheckQueue.SleepingMasterIsServed | src/checkqueue.h:77-101 | while the master sleeps unnotified, a worker holds an unfinished batch: no wake-up is lost |
| CheckQueue.NeverStuck | src/checkqueue.h:66-124 | while the master waits, some thread can make progress |
| CheckQueue.StepsUseWork | src/checkqueue.h:66-124 | every productive step uses up work and a spurious wake-up makes none |
| CheckQueue.WaitReturns | src/checkqueue.h:139-143 | so the number of productive steps before Wait returns is bounded by the work there is |
| CheckQueue.BatchOf | src/checkqueue.h:102-107 | a batch takes at least one check and no more than there are |
| CheckQueue.LoopHeadKeeps | src/checkqueue.h:88-117 | returning, going to sleep and taking a batch keep the invariant |
| CheckQueue.SettleKeeps | src/checkqueue.h:77-82 | cleaning up after a batch keeps it |
| CheckQueue.AddKeeps | src/checkqueue.h:146-158 | adding checks keeps it, whoever is woken |
| Miner.BlockAssembler.AddPackageTxs | src/miner.cpp:398-526 | terminates on every mempool; every round tries the best score of all that is left; the block only grows, by whole packages, has no transaction twice, ancestors first, weight and sigops below the limits, exact counters; it stops with nothing left to try, with an almost full block, or at a package below the fee rate whose figures are right and whose score no other has exceeded |
| Miner.BlockAssembler.TryBest | src/miner.cpp:428-524 | one round of it |
| Miner.BlockAssembler.Choose | src/miner.cpp:428-454 | the best entry with modified figures or the next one of the mempool, whichever has the better score |
| Miner.BlockAssembler.TryNext | src/miner.cpp:428-524 | one round keeps the account of what was looked at and why it was left out |
| Miner.BlockAssembler.Consider | src/miner.cpp:458-524 | a package is taken whole, or refused for a reason that still holds |
| Miner.BlockAssembler.TakePackage | src/miner.cpp:491-524 | what is left of the package enters the block, or one of its transactions may not be included |
| Miner.BlockAssembler.AddPackage | src/miner.cpp:511-519 | the sorted package is appended and leaves the modified set |
| Miner.BlockAssembler.AddToBlock | src/miner.cpp:316-333 | appends one transaction whose ancestors are in the block; counters stay exact |
| Miner.BlockAssembler.UpdatePackagesForAdded | src/miner.cpp:335-360 | the loops take the added transactions, in the order of their hashes, out of the figures of every descendant, once each |
| Miner.BlockAssembler.UpdateDescendants | src/miner.cpp:339-357 | one added transaction out of the figures of all its descendants |
| Miner.BlockAssembler.TakeOut | src/miner.cpp:347-356 | one ancestor out of one entry, on both paths |
| Miner.BlockAssembler.SortForBlock | src/miner.cpp:377-386 | the package, each member once, by ancestor count and hash |
| Miner.BlockAssembler.First | src/miner.h:87-94 | the first of a set in that order |
| Miner.BlockAssembler.OnlyUnconfirmed | src/miner.cpp:278-289 | drops exactly what is in the block |
| Miner.BlockAssembler.TestPackageTransactions | src/miner.cpp:305-314 | true if and only if all members may be included |
| Miner.BlockAssembler.constructor | src/miner.cpp:53-89 | an empty block is valid; the weight limit is clamped to leave room for the coinbase |
| BlockAssembly.UpdateKeepsMods | src/miner.cpp:335-360 | after an update the modified size and sigops are never below what is left of the package, and exact for entries that never failed |
| BlockAssembly.FailKeepsMods | src/miner.cpp:473-479 | so they are after a failure |
| BlockAssembly.FiguresOk | src/miner.cpp:458-465 | the figures a package is judged by are right in that sense |
| BlockAssembly.FiguresCover | src/miner.cpp:291-299 | they cover the weight and the sigops the package adds, so TestPackage protects the limits |
| BlockAssembly.WholeFigures | src/miner.cpp:458-460 | the cached figures cover what is left, and are exact while nothing is taken |
| BlockAssembly.FeesStayExact | src/miner.cpp:335-360 | the modified fees stay exact if and only if the ancestors that enter the block pay their modified fees in total; for a new entry the first of them by hash, which created it, does not count |
| BlockAssembly.FeesCanDrift | src/miner.h:116-128 | a mempool with a prioritised transaction on which they do not |
| Scores.NextIsBest | src/miner.cpp:428-454 | the chosen transaction has the best score of everything that is not in the block, failed or refused |
| Scores.ScoreBoundsRateIff | src/miner.cpp:467-470 | that a lower score means a lower fee rate of the package is right for a transaction if and only if its own rate is at least that of its package |
| Scores.LeftPaysLess | src/miner.cpp:467-470 | so when the selection ends at a cheap package, everything left that meets this has a package that pays at most its rate |
| Scores.RateCanBeHigher | src/miner.cpp:467-470 | a mempool on which the selection ends although a package left pays a higher rate, and more than the minimum |
| Scores.PrecedesTrans | src/txmempool.h:280-318 | the comparison of scores is transitive, ties by hash included |
| Scores.HasBest | src/miner.cpp:432-436 | a set of modified entries has a first one |
| Scores.ScoreIsLower | src/txmempool.h:301-317 | the score is at most the rate of the transaction and of its package, and one of them |
| Scores.SizesPositive | src/miner.cpp:428-454 | no modified size falls to zero, so that scores are rates |
| BlockAssembly.SortedIsReady | src/miner.h:84-94 | in a sorted package everything a transaction needs comes before it |
| BlockAssembly.SelectingEnd | src/miner.cpp:419 | when the loop runs out, every transaction is in the block, failed, or is refused as it stands with none of its ancestors in the block |
| Mempool.CountsGrow | src/miner.h:84-94 | a transaction has a larger ancestor count than each of its ancestors |
| Mempool.RemainingCloses | src/miner.cpp:491-497 | adding what is left of a package leaves the block closed under ancestors |
| Mempool.RemainingTotal | src/miner.cpp:335-360 | conservation: what is left before is what is left after plus what was taken |
| MerkleBlock.SendAndReceive | src/merkleblock.cpp:39-162 | built, packed into bytes, unpacked and extracted, a partial tree over distinct transactions gives the Merkle root and exactly the matched transactions with their positions |
| PartialMerkle.RoundTrip | src/merkleblock.cpp:39-162 | the same for the values: extraction inverts building, padding included |
| PartialMerkle.Soundness | src/merkleblock.cpp:77-162 | for arbitrary bits and hashes: if all checks pass and the real root comes out, every match is the real transaction at its position |
| PartialMerkle.HashCount | src/merkleblock.h:36-40 | the stored hashes are at most the transactions, and at most one plus one per level and match |
| PartialMerkle.FlagBits | src/merkleblock.h:42-48 | the documented bound of 2*N-1 flag bits holds if and only if no match lies below the last node of a level whose children are odd in number |
| PartialMerkle.FlagBitsCanExceed | src/merkleblock.h:42-48 | three transactions with the last one matched exceed it |
| PartialMerkle.BitCount | src/merkleblock.cpp:59-75 | the bits are twice the hashes less one, plus one for every visited node with a single child |
| PartialMerkle.StoredCount | src/merkleblock.cpp:59-75 | how many hashes are stored depends on the selection only: one for every leaf and every node without a match that is visited |
| PartialMerkle.CountsOfTree | src/merkleblock.cpp:59-75 | the hashes and flag bytes of a built tree are those of its selection |
| PartialMerkle.SizeFits | src/merkleblock.h:31-48 | the documented size bound holds if and only if the selection stores fewer than 65536 hashes and its flag bytes exceed a quarter of them by no more than the length prefixes leave, both counted on the selection before anything is built; they do not exceed it if no matched node has a single child |
| PartialMerkle.SizeCanExceed | src/merkleblock.h:31-48 | 65536 matched transactions exceed it by a length prefix |
| PartialMerkle.SizeCanExceedByFlags | src/merkleblock.h:31-48 | 1025 matched transactions exceed it by their flag bytes |
| PartialMerkle.ExtractBuilt | src/merkleblock.cpp:77-113 | extraction of a stored subtree gives its hash, its matches and the advanced counters |
| PartialMerkle.ExtractIsGenuine | src/merkleblock.cpp:77-113 | a subtree whose hash comes out right yields only real matches |
| PartialMerkle.BadStays | src/merkleblock.cpp:77-113 | badness is never forgotten |
| PartialMerkle.HashesFitLeaves | src/merkleblock.h:36-40 | the bound by leaves for every subtree |
| PartialMerkle.HashesFitMatches | src/merkleblock.h:36-40 | the bound by matches for every subtree |
| PartialMerkle.MatchesAre | src/merkleblock.cpp:59-63 | exactly the matched positions are listed |
| MerkleBlock.PartialMerkleTree.constructor | src/merkleblock.cpp:115-127 | stores the tree of the specification |
| MerkleBlock.PartialMerkleTree.Empty | src/merkleblock.cpp:129 | an empty tree is bad |
| MerkleBlock.PartialMerkleTree.ParentOfMatch | src/merkleblock.cpp:61-63 | finds a match if and only if there is one below the node |
| MerkleBlock.PartialMerkleTree.TraverseAndBuild | src/merkleblock.cpp:59-75 | appends what the specification stores for the node |
| MerkleBlock.PartialMerkleTree.TraverseAndExtract | src/merkleblock.cpp:77-113 | computes the extraction with its counters and the bad flag |
| MerkleBlock.PartialMerkleTree.ExtractMatches | src/merkleblock.cpp:131-162 | computes the extraction with all its checks |
| MerkleBlock.PartialMerkleTree.Serialize | src/merkleblock.h:99-104 | every bit in its place, zero padding behind |
| MerkleBlock.PartialMerkleTree.Unserialize | src/merkleblock.h:92-98 | every bit out of its place; the tree is no longer bad |
| MerkleBlock.PackBits | src/merkleblock.h:99-104 | packs eight to a byte, lowest first |
| MerkleBlock.UnpackBits | src/merkleblock.h:92-98 | reads them back |
| Merkle.NodeExists | src/merkleblock.h:65-68 | a node exists if and only if its first leaf does |
| Merkle.WidthHalves | src/merkleblock.h:65-68 | a level has half the nodes of the one below, rounded up |
| Merkle.TreeHeight | src/merkleblock.cpp:121-123 | the loop finds the least height with a single node |
| Merkle.NodeIsInLevel | src/merkleblock.cpp:39-57 | the recursive hash of a node is its entry in the level-by-level tree |
| Merkle.RootIsTop | src/merkleblock.cpp:39-57 | the hash of the top node is the Merkle root of the block |
| Merkle.ComputeMerkleRoot | src/consensus/merkle.cpp:45-62 | the loop computes the root, and the mutation flag |
| Merkle.HashPairs | src/consensus/merkle.cpp:56-57 | hashes neighbours into half the length |
| Merkle.HasTwins | src/consensus/merkle.cpp:49-51 | finds equal neighbours if and only if there are some |
| Merkle.RootIsBinding | src/consensus/merkle.cpp:45-62 | two unmutated lists of equal height with the same root are equal, for a collision-free hash |
| Merkle.DistinctIsUnmutated | src/consensus/merkle.cpp:45-62 | distinct transactions are never flagged as mutated |
| Merkle.NodesAreDistinct | src/merkleblock.cpp:99-106 | nodes of one level differ, so the duplicate test never hits an honest tree |
| RollingBloom.RollingBloomFilter.Contains | src/bloom.cpp:283-295 | true if and only if a plain Bloom filter over the last three generations has the key; in particular for each of the last 2*nEntriesPerGeneration keys |
| RollingBloom.RollingBloomFilter.Insert | src/bloom.cpp:246-275 | appends the key to the history; every cell holds the number of the last generation that touched it |
| RollingBloom.RollingBloomFilter.Wipe | src/bloom.cpp:254-262 | the bit-mask arithmetic clears exactly the cells with the new generation number |
| RollingBloom.RollingBloomFilter.Write | src/bloom.cpp:266-274 | writes the generation number into exactly the cells of the key; all indexes are in range |
| RollingBloom.RollingBloomFilter.constructor | src/bloom.cpp:206-231 | two generations hold at least the requested number of keys |
| RollingBloom.RollingBloomFilter.Reset | src/bloom.cpp:303-309 | forgets everything |
| RollingBloom.RecentKeysAreFound | src/bloom.h:109-110 | each of the last two generations of keys is found |
| RollingBloom.RecentIsSuffix | src/bloom.h:109-110 | the keys of the last three generations are the last ones inserted |
| RollingBloom.SetByRecent | src/bloom.cpp:283-295 | a cell is set if and only if a recent key touches it |
| RollingBloom.ExpectedSet | src/bloom.cpp:246-295 | despite the numbers wrapping at four |
| RollingBloom.NextGeneration | src/bloom.cpp:248-263 | what a new generation does to the expected cell |
| RollingBloom.NextKey | src/bloom.cpp:266-274 | what a key does to the expected cell |
| RollingBloom.HistoryGrows | src/bloom.cpp:246-275 | the flat history grows by the key |
| RollingBloom.CellIsSet | src/bloom.cpp:290 | the shifted or of both words tells whether the cell is set |
| RollingBloom.FastMod | src/bloom.cpp:242-244 | stays below its range |
| Bech32.DecodeInvertsEncode | src/bech32.cpp:147-190 | a string decodes to a prefix and values if and only if it is their encoding in lower case, or all in upper case, within 90 characters |
| Bech32.RoundTrip | src/bech32.cpp:147-190 | every valid lower-case prefix and 5-bit values within the length come back |
| Bech32.ErrorsAreDetected | src/bech32.cpp:118-125 | two value lists that differ only within six neighbouring symbols never both verify, at any length |
| Bech32.ThreeErrorsAreDetected | src/bech32.cpp:44-49 | two value lists that differ in up to three symbols anywhere within 1023 of each other never both verify |
| Bech32Errors.ThreeErrorsShow | src/bech32.cpp:44-49 | so for remainders, from any starting value |
| Bech32Errors.ThreeTerms | src/bech32.cpp:44-49 | three terms at different places cannot vanish at three successive powers |
| Bech32Errors.Roots | src/bech32.cpp:44-49 | the generator has three successive powers of one element of the field of 1024 elements as its roots |
| Bech32Errors.EvalStep | src/bech32.cpp:70-91 | a step of the loop multiplies the value at a root by that root and adds the symbol |
| Bech32Field.TurnsAreFree | src/bech32.cpp:44-49 | no power of that element below the 1023rd fixes anything but zero |
| Bech32.VerifiesOnlyChecksum | src/bech32.cpp:118-139 | six symbols make the text verify if and only if they are the created checksum |
| Bech32.DecodedSpells | src/bech32.cpp:159-190 | what is decoded spells the string |
| Bech32.SpelledDecodes | src/bech32.cpp:159-190 | what is spelled is decoded |
| Bech32.CharsetInverse | src/bech32.cpp:12-25 | the reverse table inverts the character set |
| Bech32.CharsetRevInverse | src/bech32.cpp:12-25 | and the character set inverts the reverse table up to case |
| Bech32.ComputeExpandHrp | src/bech32.cpp:103-115 | the loop computes the expansion |
| Bech32.VerifyChecksum | src/bech32.cpp:118-125 | true if and only if the remainder is one |
| Bech32.CreateChecksum | src/bech32.cpp:128-139 | the unique checksum |
| Bech32.ComputeEncode | src/bech32.cpp:147-156 | computes the encoding |
| Bech32.ComputeDecode | src/bech32.cpp:159-190 | computes the decoding with all its refusals |
| Bech32.CheckCharacters | src/bech32.cpp:160-167 | whether all characters are printable and cases are mixed |
| Bech32.FindSeparator | src/bech32.cpp:168 | the last separator |
| Bech32Checksum.PolyMod | src/bech32.cpp:37-94 | the loop computes the remainder |
| Bech32Checksum.Reduce | src/bech32.cpp:86-91 | the five conditional additions |
| Bech32Checksum.PolyIsLinear | src/bech32.cpp:37-94 | the remainder is linear over XOR |
| Bech32Checksum.StepIsLinear | src/bech32.cpp:82-91 | so is one step |
| Bech32Checksum.PolyConcat | src/bech32.cpp:37-94 | a text can be read in two parts |
| Bech32Checksum.PolyKeepsDifference | src/bech32.cpp:37-94 | equal symbols never make two remainders equal |
| Bech32Checksum.BurstsShow | src/bech32.cpp:37-94 | differences within six symbols always change the remainder |
| Bech32Checksum.PolyOfGroups | src/bech32.cpp:132-137 | six groups read back as symbols give the packed value |
| Bech32Checksum.ChecksumIsUnique | src/bech32.cpp:128-139 | exactly the six checksum symbols lead to one |
| Base58.RoundTrip | src/base58.cpp:35-122 | decoding gives back every byte string that was encoded |
| Base58.EncodeInvertsDecode | src/base58.cpp:35-122 | encoding what was decoded gives back the text without the spaces around it |
| Base58.DecodeIsWord | src/base58.cpp:35-122 | a text stands for a byte string if and only if its word is the encoding and only spaces stand behind it |
| Base58.EncodedIsText | src/base58.cpp:129-132 | an encoding has no zero byte, so it is read whole |
| Base58.CheckRoundTrip | src/base58.cpp:134-158 | with a checksum: a text is decoded if and only if its word is the encoding of the bytes and their checksum, with only spaces behind |
| Base58Bounds.EncodeFits | src/base58.cpp:94 | a buffer of n*138/100+1 digits holds every number of n bytes |
| Base58Bounds.DecodeFits | src/base58.cpp:48 | a buffer of n*733/1000+1 bytes holds every number of n digits |
| Base58.EncodeBase58 | src/base58.cpp:84-122 | the carry loops compute the encoding; the carry is always used up |
| Base58.DecodeBase58 | src/base58.cpp:35-132 | the carry loops compute the decoding of the text before the first zero byte, refusals included |
| Base58.ReadWord | src/base58.cpp:47-66 | one word; refused if and only if it has a character that is no letter |
| Base58.MultiplyAdd | src/base58.cpp:99-108 | the inner loop multiplies the number in the buffer and adds, and no carry is left over |
| Base58.SkipZeroes | src/base58.cpp:111-114 | what is left are the digits of the number |
| Base58.EncodeBase58Check | src/base58.cpp:134-141 | encodes with the checksum behind |
| Base58.DecodeBase58Check | src/base58.cpp:143-158 | decodes the text before the first zero byte and tests the checksum |
| ArithUint256.GetBlockProof | src/chain.cpp:122-135 | exactly floor(2^256/(target+1)) for every non-negative, non-overflowing, nonzero compact target, and zero otherwise |
| ArithUint256.ProofOfTarget | src/chain.cpp:130-134 | the rewritten formula is that quotient |
| ArithUint256.NotAllOnes | src/chain.cpp:130-134 | the target plus one never wraps |
| ArithUint256.BaseUint.Divide | src/arith_uint256.cpp:84-108 | floor division for every nonzero divisor; division by zero is reported and leaves zero |
| ArithUint256.BaseUint.DecideBit | src/arith_uint256.cpp:98-106 | one bit of the quotient |
| ArithUint256.BaseUint.Multiply | src/arith_uint256.cpp:68-82 | the product modulo 2^256 |
| ArithUint256.BaseUint.MultiplyInto | src/arith_uint256.cpp:68-82 | the schoolbook loops; no sum exceeds 64 bits |
| ArithUint256.BaseUint.ShiftLeft | src/arith_uint256.cpp:22-37 | multiplication by a power of two, modulo 2^256, also in place |
| ArithUint256.BaseUint.ShiftRight | src/arith_uint256.cpp:39-54 | division by a power of two |
| ArithUint256.BaseUint.Add | src/arith_uint256.h:134-144 | the sum modulo 2^256, also with itself |
| ArithUint256.BaseUint.Subtract | src/arith_uint256.h:146-150 | the difference modulo 2^256 |
| ArithUint256.BaseUint.Negate | src/arith_uint256.h:76-83 | the negative modulo 2^256 |
| ArithUint256.BaseUint.Complement | src/arith_uint256.h:68-74 | the largest number less the number |
| ArithUint256.BaseUint.Increment | src/arith_uint256.h:172-179 | one more, modulo 2^256 |
| ArithUint256.BaseUint.CompareTo | src/arith_uint256.cpp:110-120 | the order of the numbers |
| ArithUint256.BaseUint.Bits | src/arith_uint256.cpp:172-185 | the bit length |
| ArithUint256.BaseUint.GetLow64 | src/arith_uint256.h:244-248 | the number modulo 2^64 |
| ArithUint256.BaseUint.constructor | src/arith_uint256.h:56-64 | a number of 64 bits |
| ArithUint256.BaseUint.Copy | src/arith_uint256.h:41-47 | a copy |
| ArithUint256.BaseUint.Assign | src/arith_uint256.h:49-54 | assignment, also to itself |
| ArithUint256.BaseUint.Assign64 | src/arith_uint256.h:87-94 | assignment of 64 bits |
| ArithUint256.BaseUint.SetCompact | src/arith_uint256.cpp:205-223 | the decoded number modulo 2^256 and both flags |
| ArithUint256.BaseUint.GetCompact | src/arith_uint256.cpp:225-246 | the code, within 32 bits |
| ArithUint256.BaseUint.LeadingBytes | src/arith_uint256.cpp:227-234 | the leading bytes and the length in bytes |
| Compact.NearestBelow | src/arith_uint256.cpp:205-246 | decoding a code rounds down to the nearest number that has a code |
| Compact.DecodeOfCode | src/arith_uint256.cpp:205-246 | the decoded number is the original without its low bytes, with the sign asked for |
| Compact.CodeIsStable | src/arith_uint256.cpp:205-246 | decoding and encoding again gives the same code |
| Compact.CodeIsMonotone | src/arith_uint256.cpp:205-246 | the rounding is monotone |
| Compact.CodeFits | src/arith_uint256.cpp:225-246 | the code of a 256-bit number has no overflow and fits into 32 bits |
| Compact.CodeKeeps | src/arith_uint256.cpp:225-246 | short numbers are kept whole, longer ones keep at least 15 leading bits |
| Compact.OverflowIsExact | src/arith_uint256.cpp:219-221 | the overflow flag says exactly that the magnitude exceeds 256 bits |
| LimbBits.LeftVal | src/arith_uint256.cpp:22-37 | limbs shifted left are the product |
| LimbBits.RightVal | src/arith_uint256.cpp:39-54 | limbs shifted right are the quotient |
| LimbBits.HighestDecides | src/arith_uint256.cpp:110-120 | the highest limb that differs decides |
| LimbBits.BitCountIs | src/arith_uint256.cpp:172-185 | the bit length is the power of two just above |
| Chain.BlockIndex.GetAncestor | src/chain.cpp:84-109 | the skip-pointer walk ends and finds the block the parent walk finds, or nothing outside the heights; it takes the counted steps, at most 110 up to height 2^18 |
| Chain.BlockIndex.constructor | src/chain.cpp:116-120 | the skip pointer is the ancestor at the skip height; if all blocks before have theirs, all have |
| SkipHeights.SkipHeight | src/chain.cpp:73-82 | the skip height is lower |
| SkipHeights.DocumentedLimit | src/chain.cpp:78-81 | up to height 2^18 no walk takes more than 110 steps, and one does |
| SkipHeights.StepLimit | src/chain.cpp:84-109 | the most steps from any height up to 2^k, for every k; they grow with the square of k |
| SkipHeights.LimitIsReached | src/chain.cpp:84-109 | from 2^k - 8 to height two it is reached, for every k from 12 on |
| SkipHeights.StepsBelow | src/chain.cpp:84-109 | the most steps from a power of two above a round height to anything between |
| SkipHeights.StepsThroughOnes | src/chain.cpp:92-106 | an odd height turns off two ones at a time until that leads too far |
| SkipHeights.StepsFromAbove | src/chain.cpp:84-109 | the most steps before the highest differing bit is left alone |
| SkipHeights.EvenNext | src/chain.cpp:95-99 | at an even height, when the skip pointer of the odd one above leads too far, its own is taken unless that leads too far as well |
| Chain.LastCommonAncestor | src/chain.cpp:154-171 | the highest block that is an ancestor of both |
| Chain.ActiveChain.SetTip | src/chain.cpp:11-21 | the chain is the whole path of the tip, despite stopping early |
| Chain.ActiveChain.FindFork | src/chain.cpp:51-60 | the highest ancestor in the chain, or nothing if there is none |
| Chain.ActiveChain.GetLocator | src/chain.cpp:23-49 | the ancestors at the locator heights, the same on both lookup paths |
| Chain.ActiveChain.StepBack | src/chain.cpp:36-43 | one step of it |
| Chain.LocatorHeights | src/chain.cpp:23-49 | start at the block, fall strictly, end at the first block |
| Chain.PathOfAncestor | src/chain.cpp:84-109 | an ancestor has the start of the path as its path, and its pointers stay on it |
| Chain.PathsMeet | src/chain.cpp:154-171 | paths that meet are the same below |
| GcsFilter.BuildAndLoad | src/blockfilter.cpp:110-161 | a built filter is accepted on reload and holds exactly the hashes of its elements |
| GcsFilter.Build | src/blockfilter.cpp:133-161 | a built filter holds exactly the hashes; refused if and only if there are 2^32 elements or more |
| GcsFilter.Load | src/blockfilter.cpp:110-131 | accepted if and only if exactly n values and no further byte are encoded |
| GcsFilter.Filter.MatchAny | src/blockfilter.cpp:201-205 | true if and only if some hashed query is among the values: no false negatives |
| GcsFilter.Filter.Match | src/blockfilter.cpp:195-199 | the same for one element |
| GcsFilter.Filter.MatchInternal | src/blockfilter.cpp:163-193 | the merge loop finds a common value of two sorted lists if and only if there is one |
| GcsFilter.BuildHashedSet | src/blockfilter.cpp:95-104 | the hashes, sorted, in range, each as often as there are elements with it |
| GcsFilter.Insert | src/blockfilter.cpp:102 | inserting keeps a list sorted and adds exactly the value |
| GcsFilter.DecodeAllInverts | src/blockfilter.cpp:110-161 | decoding inverts encoding for a whole list |
| GcsFilter.DecodedIsSorted | src/blockfilter.cpp:173-178 | what is read is sorted and as long as asked |
| GcsFilter.DecodedFits | src/blockfilter.cpp:173-178 | no value exceeds 2^p times the bits that were read |
| GcsFilter.NothingWraps | src/blockfilter.cpp:173-178 | no value reaches 2^64 if the bits times 2^p do not |
| GolombRice.DecodeInvertsEncode | src/blockfilter.cpp:25-54 | Golomb-Rice decoding inverts encoding anywhere in a stream |
| GolombRice.GolombRiceEncode | src/blockfilter.cpp:25-40 | the loop in pieces of 64 writes the code |
| GolombRice.GolombRiceDecode | src/blockfilter.cpp:42-54 | the loop reads the code, and fails at the end of the stream |
| GolombRice.NumberFits | src/blockfilter.cpp:42-54 | a number that is read is smaller than 2^p times its bits |
| GolombRice.MapIntoRange | src/blockfilter.cpp:61-85 | the split product is floor(x*n/2^64), without overflow |
| GolombRice.NumberOfLowBits | src/blockfilter.cpp:37-39 | the low bits are the remainder |
| CompactBlocks.SendAndRebuild | src/blockencodings.cpp:19-209 | if no candidate has the short id that the sender gives to another transaction of the block, the message leads to exactly the block when the missing transactions follow in order; this goes through if and only if the short ids differ and no bucket is overfull; the sender may hash witness ids or plain ids |
| CompactBlocks.PartialBlock.InitData | src/blockencodings.cpp:49-169 | invalid if and only if not acceptable; good if and only if also the short ids differ and no bucket is overfull; then the slot of a short id holds a transaction if and only if it is the only one found for it up to where the scans end and the mempool lists it once, the count is that of the filled slots, and the count of extra ones is what was gained less what was lost |
| CompactBlocks.PlacePrefilled | src/blockencodings.cpp:59-74 | refused if and only if a gap or a null transaction forbids it; exactly as many slots stay empty as there are short ids |
| CompactBlocks.MapShortIds | src/blockencodings.cpp:77-103 | the i-th short id is mapped to the i-th empty slot; refused if and only if two ids are equal or a bucket is overfull |
| CompactBlocks.PartialBlock.ScanPool | src/blockencodings.cpp:109-132 | the mempool loop and where it ends |
| CompactBlocks.PartialBlock.ScanExtra | src/blockencodings.cpp:135-164 | the loop over the extra transactions and where it ends; both counts change alike |
| CompactBlocks.GrowthIsNegative | src/blockencodings.cpp:135-164 | the count of extra transactions falls below zero if and only if the slots are never all filled during that loop and more short ids with one mempool candidate meet an extra one that differs than short ids without one meet a single extra one |
| CompactBlocks.UndisputedGrowth | src/blockencodings.cpp:135-164 | never if no extra candidate shares a wanted short id with a mempool candidate it differs from |
| CompactBlocks.SeesAll | src/blockencodings.cpp:127-164 | with a short id that has no candidate, no scan is cut short and the count is the difference over all candidates |
| CompactBlocks.CountGrows | src/blockencodings.cpp:135-164 | the filled slots grow by the gained less the lost, for every prefix of the short ids |
| CompactBlocks.CountIsFull | src/blockencodings.cpp:127-131 | the count reaches the number of short ids exactly when every slot is filled |
| CompactBlocks.ExtraCanFallBelow | src/blockencodings.cpp:49-169 | a message and candidates that are taken in and leave the count of extra transactions at -1 |
| CompactBlocks.PartialBlock.FillBlock | src/blockencodings.cpp:177-209 | the block, the result and the new state in every case, also half-way through |
| CompactBlocks.PartialBlock.constructor | src/blockencodings.h:197-204 | no header and no slots |
| CompactBlocks.HonestSlots | src/blockencodings.cpp:105-164 | without collisions every slot is empty or holds the own transaction of the block, and it is filled if a mempool without duplicates has it under the same short id |
| CompactBlocks.MergedIsBlock | src/blockencodings.cpp:183-191 | own transactions and the missing ones in order give the block |
| CompactBlocks.PoolHit | src/blockencodings.cpp:112-126 | a mempool candidate for a short id keeps the account |
| CompactBlocks.PoolMiss | src/blockencodings.cpp:110-112 | so does one for none |
| CompactBlocks.ExtraHit | src/blockencodings.cpp:138-158 | so does an extra candidate for a short id |
| CompactBlocks.ExtraMiss | src/blockencodings.cpp:136-138 | and one for none |
| CompactBlocks.MakeMessage | src/blockencodings.cpp:19-29 | the sender's message |
| CompactBlocks.MessageDescribes | src/blockencodings.cpp:19-29 | is acceptable and describes the block |
| CompactBlocks.UnevenStays | src/blockencodings.cpp:87-99 | an overfull bucket stays so, so an early refusal is justified |
| CompactBlocks.PositionsAscend | src/blockencodings.cpp:59-74 | positions of prefilled transactions ascend |
| CompactBlocks.IndexRoundTrip | src/blockencodings.h:37-68 | reading gives back 16-bit indexes if and only if they ascend |
| CompactBlocks.ReadAscends | src/blockencodings.h:55-61 | indexes that are read ascend and fit into 16 bits |
| CompactBlocks.WriteIndexes | src/blockencodings.h:63-66 | writes the gaps |
| CompactBlocks.ReadIndexes | src/blockencodings.h:42-61 | reads them, refused where the source throws |
| CuckooCache.Cache.Insert | src/cuckoocache.h:392-440 | an element that is there is made recent at the first of its slots that holds it; otherwise conservation: the entries in use, with their epochs, are those after aging plus the new one, less at most one; none is lost if a slot of the element is free; every entry in use sits at one of its own eight slots |
| CuckooCache.Cache.InsertNew | src/cuckoocache.h:406-439 | the displacement loop: conservation, and exactly the placement in which an entry takes its first free slot or changes places with the entry in the next place |
| CuckooCache.FirstPlace | src/cuckoocache.h:416-430 | the first place that is displaced is the second of the eight |
| CuckooCache.MovesAgain | src/cuckoocache.h:416-430 | the entry just put in is moved again if and only if the next of its eight slots is the same one; never if they differ |
| CuckooCache.MovedBack | src/cuckoocache.h:430-435 | then the two rounds undo each other |
| CuckooCache.CanMoveAgain | src/cuckoocache.h:416-430 | a hash with which it happens |
| CuckooCache.Cache.Displace | src/cuckoocache.h:430-435 | element and epoch change places with those at hand |
| CuckooCache.Cache.Use | src/cuckoocache.h:411-413 | a slot becomes used |
| CuckooCache.Cache.FindDead | src/cuckoocache.h:408-410 | the first slot that may be overwritten, if there is one |
| CuckooCache.Cache.EpochCheck | src/cuckoocache.h:289-321 | counts down, or ages exactly the entries of the old epoch, or sets the counter anew |
| CuckooCache.Cache.Contains | src/cuckoocache.h:467-477 | true if and only if one of the eight slots holds the element; with erase the first of them is given up, and nothing else changes |
| CuckooCache.Cache.constructor | src/cuckoocache.h:340-352 | nothing is in use; the counter starts at a whole epoch of 45 percent of the slots |
| CuckooCache.BagIsFindable | src/cuckoocache.h:467-477 | every entry in use is found |
| CuckooCache.AllButOneFindable | src/cuckoocache.h:392-440 | after an insert, all entries but at most one are found |
| CuckooCache.BagOfUse | src/cuckoocache.h:411-413 | what using a slot does to the entries in use |
| CuckooCache.BagChange | src/cuckoocache.h:392-440 | a change in one slot changes the entries by its share |
| CuckooCache.Slot | src/cuckoocache.h:243-253 | a slot is in range |
| CuckooCache.Locs | src/cuckoocache.h:243-253 | eight slots in range |
| CuckooCache.PackedFlags.constructor | src/cuckoocache.h:61-68 | all flags are set |
| CuckooCache.PackedFlags.Set | src/cuckoocache.h:92-95 | sets exactly one flag |
| CuckooCache.PackedFlags.Unset | src/cuckoocache.h:103-106 | clears exactly one flag |
| CuckooCache.PackedFlags.Get | src/cuckoocache.h:113-116 | reads it |

## Left out

- Hash functions (SHA-256, SipHash, MurmurHash3), keys and signatures: uninterpreted parameters.
- Sockets, RPC, the database, files, configuration, logging and the rest of the node: outside this model.
- Address manager: `Select_` and `GetChance`, whose termination and weights are probabilistic and in floating point.
- Address manager: byte encoding of entries; a file is a sequence of entries and numbers, and a bad key size or a limit exceeded is refused as in the source.
- Address manager: runs that call Clear or Unserialize while collisions are pending that do not fit; the state they give is specified, the invariant does not hold of it.
- AddrManObject.AddrMan.Unserialize: does not describe the manager after a refused file, where the source leaves an entry half read.
- AddrManObject.AddrMan.LoadFile: the same.
- AddrManObject.AddrMan.UnserializeTables: the same.
- AddrManObject.AddrMan.ReadNewEntries: the same.
- AddrManObject.AddrMan.ReadTriedEntries: the same.
- AddrManObject.AddrMan.ReadNewTable: the same.
- AddrManObject.AddrMan.ReadBucket: the same.
- Address manager: 32-bit overflow of ids and counters.
- CoinsViewCache.CoinsStack.BatchWrite: does not describe the half-written cache after the source throws; `CoinsRefinement.RunRefines` shows that it does not throw in allowed runs.
- CoinsViewCache.CoinsStack.Flush: does not describe the two caches after the source throws; `CoinsRefinement.FlushKeeps` shows that it does not throw on a consistent stack.
- CoinsRefinement.WriteViews: leaves out the database's assertion that the best block is set; `CoinsRefinement.FlushBestBlock` names the case.
- CoinsRefinement.FlushBestBlock: leaves out a flush into the database without a best block, where the source asserts.
- Coin caches: the stack is one object with a position per cache, so two caches over one base are not modelled; the database is a plain map, without partial batches, its crash marker or its assertion on the best block.
- Check queue: threads are steps of a state machine over the code under the mutex; interruption and destruction are not modelled, and fairness of the scheduler is not assumed.
- Block assembly: scores are compared exactly, where the source multiplies in floating point.
- Block assembly: the coinbase, the anchor and special transactions added before selection, and the header; finality and witness rules are an oracle per transaction.
- Block assembly: the mempool is a finite set with exact ancestor sets and totals, positive sizes, and weight at most four times the size.
- Partial Merkle trees: 32-bit overflow of the tree width for more than 2^31 transactions, which the check on the number of transactions excludes.
- RollingBloom.RollingBloomFilter.constructor: takes the number of hash functions and words as parameters instead of computing them from the false-positive rate in floating point.
- Bloom filter of the protocol (CBloomFilter): would only add easy members.
- Bech32.ErrorsAreDetected: covers errors within six neighbouring symbols; up to three that stand farther apart are covered by `Bech32.ThreeErrorsAreDetected`.
- Bech32.ThreeErrorsAreDetected: does not cover four errors within 89 symbols, which the source owes to a search among generators rather than to the roots.
- Base58: sizes beyond an int.
- 256-bit arithmetic: decrement, multiplication by 32 bits, hexadecimal and floating-point conversion, bitwise operators.
- Chain.BlockIndex.constructor: the links of a block are fixed when it is entered, so that BuildSkip is part of the constructor; later changes of links are not modelled.
- Chain.ActiveChain.GetLocator: does not model overflow of the step, which needs more than 2^31 blocks.
- Block index: FindEarliestAtLeast, validity flags and block files.
- GCS filters: byte streams; bits are a sequence, padded to bytes.
- GcsFilter.Load: takes the length prefix as a parameter, and does not model values of foreign encodings that wrap at 64 bits, which `GcsFilter.NothingWraps` excludes while the bits times 2^p stay below 2^64.
- GcsFilter.Filter.MatchInternal: does not model such values either.
- GolombRice.GolombRiceDecode: does not model them either; `GolombRice.NumberFits` bounds what is read.
- CompactBlocks.PartialBlock.InitData: assumes at most 65535 transactions, because every message comes from deserialization, which throws beyond that (`src/blockencodings.h:185-190`); which ids share a bucket is a parameter.
- CompactBlocks.MapShortIds: assumes at most 65536 slots for the same reason; positions are stored in 16 bits.
- Compact blocks: the short-id hash is a parameter, and the check of the finished block is an oracle.
- CuckooCache.Cache.constructor: takes the depth limit as a parameter instead of computing a logarithm.
- Cuckoo cache: memory orders of the atomic flags; reads concurrent with an insert.
