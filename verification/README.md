# A verified model of the core of a BitCash node

This project models the parts of a BitCash node that keep redundant, compact or
concurrent state, and proves what the rest of the node relies on.

- The **address manager** (`AddrMan*.dfy`): two slot tables, an entry map, an
  address index, a random order and counters that must agree after every
  operation, the test-before-evict queue, and the file format.
- The **memory pool's cached totals and the block assembler** (`Mempool.dfy`,
  `MempoolUpdates.dfy`, `MempoolSpending.dfy`, `BlockAssembler.dfy`): how the totals of
  a transaction with its ancestors and the index of spent outputs are kept, what a
  block removes, and the selection of packages.
- The **script check queue** (`CheckQueue.dfy`): a master and workers sharing a
  queue, as a state machine over the steps between lock operations.
- The **coin cache** (`CoinsView.dfy`, `CoinsCache.dfy`): stacks of caches over a
  store.
- The **signature cache** (`CuckooCache.dfy`, `CuckooHistory.dfy`).
- **Partial Merkle trees** (`MerkleTree.dfy`, `PartialMerkleTree.dfy`).
- **256-bit arithmetic and compact targets** (`Limbs.dfy`, `LimbShifts.dfy`,
  `Uint256.dfy`, `CompactTarget.dfy`).
- The **block tree and the active chain** (`SkipHeights.dfy`, `Chain.dfy`).
- The **rolling bloom filter** (`RollingBloom.dfy`).
- **Compact block relay** (`IndexCoding.dfy`, `CompactBlocks.dfy`,
  `BlockReconstruction.dfy`).
- **Message framing** (`MessageFraming.dfy`, `MessageStreams.dfy`).
- **Base58 and Bech32** (`Digits.dfy`, `Base58.dfy`, `Bech32Checksum.dfy`,
  `Bech32Generator.dfy`, `Bech32Linear.dfy`, `Bech32Field.dfy`, `Bech32Logs.dfy`,
  `Bech32Search.dfy`, `Bech32Four.dfy`, `Bech32Errors.dfy`, `Bech32.dfy`,
  `Bech32Text.dfy`): encodings, exactly which texts decode,
  and which errors the checksum detects.

`Powers.dfy` and `Bits.dfy` hold the arithmetic they share.

Objects the source updates in place are classes. Each method is proved against a
function on values, and the properties are lemmas about those functions. The
assertions of the source appear as assertions that are proved. `dafny verify
dfyconfig.toml` checks everything.

## How to read the model

- Hashing, keys, randomness and clocks are parameters. Collision freedom of the
  Merkle hash is a hypothesis of the lemmas that need it; absence of short id
  collisions is a hypothesis of block reconstruction.
- The two tables of the address manager are flat: slot 64 * bucket + position.
  One time is used throughout an operation.
- The package comparator of the assembler is a free choice among the candidates
  it could name, so the results hold for every order.
- A refused transaction may be judged again by totals that still count ancestors
  selected before it was refused (src/miner.cpp:948-953, 1079-1080). What is said of
  refusals names the point in the block since which totals were kept.
- The check queue's steps are the code between two acquisitions of its mutex.
- Elements of GF(1024) and the words of the search behind the detection of four
  errors are bit vectors; tables and matrices in those files are data.
- A nickname registration has only nickname inputs, which spend nothing, and other
  transactions have none, as src/consensus/tx_verify.cpp:224-228 demands.
- Machine words are written out where they matter: 32-bit limbs and 64-bit
  intermediate results, 16-bit positions and indexes, the 32-bit epoch size, the
  32-bit entry times. Counters of bytes, heights and lengths are unbounded.
- The words of the rolling bloom filter and the remainders of the Bech32 checksum
  are sequences of bits, so the masks and shifts of the source act bit by bit.
- Base58 buffers are indexed from their last element, as the source's reverse
  iterators do. Bech32's empty pair, Base58's false and exceptions on reading are
  `None` or an error value.

## Where the code differs from what one might expect

The model follows the code.

- The comment at src/cuckoocache.h:417-426 says the first victim is at the first
  position; the expression `(1 + 8) & 7` chooses the second.
- Clearing an address manager (src/addrman.h:471-493) keeps its pending
  collisions while ids start again. `ClearSafe` gives the exact condition under
  which no later run is harmed, `ClearStrandsCollision` what happens otherwise, and
  `PendingReached` a run that gets there.
- Marking an entry good at time zero or before can make the consistency check fail;
  `GoodTimes`, `AttemptTimes` and `ResolveTimes` say exactly when, and
  `RunsPassCheck` for whole runs.
- When `AddCoin` throws (src/coins.cpp:66-85), the memory counter has already been
  lowered (`CoinsCache.Coins.AddCoin`).
- A flush without a best block of its own hands a null hash down to a cache, and
  fails at the assertion of the store (src/txdb.cpp:93); see `FlushSound`.
- Positions of short ids are stored in 16 bits although the block limit of this
  node allows more transactions. `PositionsFit` gives the exact bound,
  `BeyondStaysEmpty` and `WronglyFilled` what happens past it.
- Reading a request for transactions keeps its offset in 16 bits (src/blockencodings.h:54-61), so a message
  may go on after index 65535 with any index. `ReadExact` says which messages are read as
  increasing indexes, `StartsAgain` what happens otherwise.
- The search for the next empty slot counts in 16 bits too (src/blockencodings.cpp:81-85)
  and does not end if all 65536 positions it can reach are prefilled. `ReachExact`
  gives the exact condition, `SearchRunsOn` shows that the guard of the loop stays
  true, and `EndlessSearch` gives a well-formed block.
- The remark that the walk along skip pointers takes at most 110 steps for heights up
  to 2^18 (src/chain.cpp:76-79) comes from simulations; `WalkBound` gives 243 below 2^18, and
  about half the square of the logarithm in general.
- The second size limit in `ReceiveMsgBytes` (src/net.cpp:834-837) is larger than
  the one already enforced on headers, so it never applies.
- `LastCommonAncestor` states that all branches meet at the genesis block; without
  that it returns null and its assertion still holds.

## Model

| member | source | states |
|---|---|---|
| `AddrManState.SwapKeeps` | src/addrman.cpp:93-111 | exchanging two positions of the random order keeps every index of the manager in agreement |
| `AddrManState.DeleteKeeps` | src/addrman.cpp:113-125 | deleting an entry without a slot keeps the whole invariant, with the entry gone from every index and counter |
| `AddrManState.DeleteEffect` | src/addrman.cpp:113-125 | deletion removes exactly that id and changes no other entry except for its place in the random order |
| `AddrManState.CreateKeeps` | src/addrman.cpp:81-91 | a created entry is indexed, listed and counted, and only lacks its slot |
| `AddrManState.ClearNewKeeps` | src/addrman.cpp:127-140 | emptying a slot of the new table keeps the invariant, with reference counts equal to occupied slots |
| `AddrManState.ClearNewEffect` | src/addrman.cpp:127-140 | only the occupant is touched: one reference less, and gone with its last reference |
| `AddrManState.LinkKeeps` | src/addrman.cpp:312-318 | giving an entry a free slot at its own position of a bucket keeps the invariant and settles a pending entry |
| `AddrManState.DetachKeeps` | src/addrman.cpp:142-154 | taking an entry out of every bucket leaves it uncounted and without a slot, everything else in order |
| `AddrManState.EvictKeeps` | src/addrman.cpp:160-170 | taking the occupant out of a tried slot leaves it as an uncounted entry without a slot |
| `AddrManState.PromoteKeeps` | src/addrman.cpp:183-188 | putting an entry that is nowhere into its own free tried slot restores the full invariant |
| `AddrManState.SlotsByHash` | src/addrman.cpp:12-31 | the bucket and the position in it that the keyed hashes give an address, in each of the two tables |
| `AddrManState.TerribleTimes` | src/addrman.cpp:33-51 | an entry is terrible exactly if it was not tried in the last minute and is from the future by ten minutes, unheard of for thirty days, failed three times without a success, or failed ten times with none for a week; time alone never redeems one that is not from the future |
| `AddrManOps.AddKeeps` | src/addrman.cpp:254-325 | adding any address, from any source and with any random draw, keeps the invariant |
| `AddrManOps.AddUnknown` | src/addrman.cpp:254-325 | an unknown routable address is stored with its services, its penalised time and one reference in the slot its source selects exactly when that slot is free, its holder terrible or multiply referenced; otherwise nothing changes |
| `AddrManOps.AddKnown` | src/addrman.cpp:262-300 | a known address gains one reference, in the slot the source selects, exactly when the announcement is newer than the entry, the entry is new with fewer than eight references, the draw is zero in 2^references and the slot is free or its holder terrible; otherwise only its time and services move |
| `AddrManOps.AnnouncedEffect` | src/addrman.cpp:269-277 | an announcement adds services and never moves the time back; the time follows the announcement, less the penalty, exactly when it lags by more than an hour, or a day for an old announcement |
| `AddrManOps.PlaceEffect` | src/addrman.cpp:306-325 | placing an entry changes only it and the holder it displaces, which disappears with its last reference |
| `AddrManOps.DemoteEffect` | src/addrman.cpp:160-181 | an evicted tried entry returns to the new table with one more reference at its home slot, displacing the holder there |
| `AddrManOps.MakeTriedKeeps` | src/addrman.cpp:142-188 | moving an entry to the tried table keeps the invariant, so no assertion on the way can fail |
| `AddrManOps.MakeTriedEffect` | src/addrman.cpp:142-188 | the entry leaves every new slot and takes its tried slot; a previous occupant goes back with one reference; nobody else changes |
| `AddrManOps.GoodKeeps` | src/addrman.cpp:190-252 | marking any address good, with or without test-before-evict, keeps the invariant |
| `AddrManOps.GoodEffect` | src/addrman.cpp:190-252 | told by the state before: an unknown service only moves the clock; an entry that would have to evict another waits as one of at most ten collisions; any other holds its tried slot afterwards with no new references and a fresh record, and the entry it replaced has one reference in the new table |
| `AddrManOps.StatisticsKeep` | src/addrman.cpp:327-347 | recording attempts, connections and services keeps the invariant |
| `AddrManOps.StatisticsEffect` | src/addrman.cpp:327-347 | attempts grows by one exactly when counting is asked for and no attempt was counted since the last success; a connection refreshes a time that lags by more than twenty minutes; nothing else changes |
| `AddrManOps.BlamedOnce` | src/addrman.cpp:327-347 | over any series of attempts since the last success, on any services, each entry is blamed at most once, and exactly if a counted attempt named it |
| `AddrManOps.GetAddrSound` | src/addrman.cpp:474-493 | the sample lists distinct live addresses that are not terrible, at most 2500 and at most 23 percent of all, is complete unless cut by these limits, and only reorders the random order |
| `AddrManRuns.ResolveFromKeeps` | src/addrman.cpp:537-587 | resolving any set of pending collisions keeps the invariant |
| `AddrManRuns.ResolveOneEffect` | src/addrman.cpp:537-587 | one pending collision, by cases on the state before: forgotten if its entry is gone or invalid or the holder of its slot connected in the last four hours; its entry takes the slot if that is empty or its holder was tried in vain more than a minute and less than four hours ago; otherwise nothing changes |
| `AddrManRuns.ResolveAllEffect` | src/addrman.cpp:537-587 | all pending collisions at once, told by the state before: a slot changes hands exactly when it yields and an entry that disputes it is still there, and goes to one of these; all who disputed it stop waiting; collisions with a proven holder are forgotten and undecided ones stay |
| `AddrManRuns.SelectServed` | src/addrman.cpp:589-614 | a pending collision whose entry is live is answered with the tried entry holding its slot, and a stale one is dropped |
| `AddrManRuns.GoodTimes` | src/addrman.cpp:190-252 | marking an address good leaves the recorded times in order if and only if there is no such entry, the time is positive, or it is zero and the entry has to wait for a test of the one that holds its tried slot |
| `AddrManRuns.AttemptTimes` | src/addrman.cpp:327-347 | recording an attempt leaves the times in order if and only if there is no such entry or the time is not negative |
| `AddrManRuns.ResolveTimes` | src/addrman.cpp:537-587 | resolving served collisions leaves the times in order at every time, because none is resolved by a swap at a time that is not positive |
| `AddrManHistory.StepHealthy` | src/addrman.cpp:142-252 | every operation, clearing and reading a file included, with every random choice keeps the invariant, at most ten pending collisions, and an occupied tried slot for each live one |
| `AddrManHistory.StepTimes` | src/addrman.cpp:190-347 | an operation leaves the recorded times in order exactly when its own condition on the state before holds |
| `AddrManHistory.RunHealthy` | src/addrman.cpp:190-587 | every sequence of operations in which clearing and reading a file happen only without pending collisions stays healthy, with the times in order if each operation met its condition |
| `AddrManHistory.ClearSafe` | src/addrman.h:471-493 | after clearing, every run that clears again or reads a file only without pending collisions keeps at most ten collisions and an occupied tried slot for each live one if and only if no collision was pending, given as many addresses to add as there were ids |
| `AddrManHistory.ClearStrandsCollision` | src/addrman.h:471-493 | otherwise, for each pending id, adding addresses gives that id out again to an entry whose tried slot is empty; selecting it then returns a null entry and breaks the invariant |
| `AddrManHistory.PendingReached` | src/addrman.cpp:190-252 | a run from an empty manager that reaches a pending collision, for any two addresses that share a tried slot |
| `AddrMan.Manager.constructor` | src/addrman.h:495-498 | a new manager is the empty one |
| `AddrMan.Manager.Clear` | src/addrman.h:471-493 | everything is emptied except the pending collisions |
| `AddrMan.Manager.Find` | src/addrman.cpp:68-79 | the id the address index gives, if that entry is live |
| `AddrMan.Manager.Create` | src/addrman.cpp:81-91 | the object moves as the specification step Create |
| `AddrMan.Manager.SwapRandom` | src/addrman.cpp:93-111 | its assertions hold whenever the entries and the random order agree, and the two positions are exchanged |
| `AddrMan.Manager.Delete` | src/addrman.cpp:113-125 | its three assertions hold and the object moves as the specification step Delete |
| `AddrMan.Manager.ClearNew` | src/addrman.cpp:127-140 | the refcount assertion holds and the object moves as the specification step ClearNew |
| `AddrMan.Manager.MakeTried` | src/addrman.cpp:142-188 | its four assertions hold and the object moves as the specification function |
| `AddrMan.Manager.Good` | src/addrman.cpp:190-252 | the in-place bucket search and update compute the specification function and keep the invariant |
| `AddrMan.Manager.Add` | src/addrman.cpp:254-325 | the in-place update computes the specification function, reports whether the address was new, and keeps the invariant |
| `AddrMan.Manager.Attempt` | src/addrman.cpp:327-347 | the object moves as the specification function |
| `AddrMan.Manager.Connected` | src/addrman.cpp:495-513 | the object moves as the specification function |
| `AddrMan.Manager.SetServices` | src/addrman.cpp:515-531 | the object moves as the specification function |
| `AddrMan.Manager.GetAddr` | src/addrman.cpp:474-493 | the shuffling loop returns the sample of the specification function and keeps the invariant |
| `AddrMan.Manager.ResolveCollisions` | src/addrman.cpp:537-587 | the loop resolves every pending collision in ascending order of id and keeps the invariant |
| `AddrMan.Manager.SelectTriedCollision` | src/addrman.cpp:589-614 | the object moves as the specification function, including the null entry its default insertion can create |
| `AddrMan.Manager.Check` | src/addrman.cpp:397-472 | returns zero exactly when all the checked facts hold, the key included |
| `AddrMan.ConsistentPasses` | src/addrman.cpp:397-472 | of a consistent manager the check demands exactly ordered times and a key that is not null |
| `AddrMan.StepPasses` | src/addrman.cpp:190-587 | from a healthy manager that passes the check an operation leads to one that passes if and only if it meets its condition on the state before |
| `AddrMan.RunsPassCheck` | src/addrman.cpp:190-587 | the check passes after every operation of a legal run if and only if each operation met its condition when it came |
| `AddrMan.EmptyPasses` | src/addrman.h:471-498 | where runs begin: an empty manager is healthy, and passes the check exactly if its key is not null |
| `AddrMan.PositiveTimesPass` | src/addrman.cpp:190-587 | operations at positive times under keys that are not null meet their conditions in every run |
| `AddrMan.Manager.Serialize` | src/addrman.h:316-363 | the loops write the specified stream; both count assertions hold |
| `AddrMan.Manager.Unserialize` | src/addrman.h:366-469 | the loops read a stream as specified, also with negative counts, and fail exactly on a wrong key size, an impossible count or too little data; every deletion they make is possible |
| `AddrManSerialize.PruneListed` | src/addrman.h:453-464 | whatever was read, pruning can delete each entry it picks and leaves the others to be looked at |
| `AddrManSerialize.LoadNewDense` | src/addrman.h:394-412 | entries of the new table are numbered from zero in the order read, and listed so |
| `AddrManSerialize.LoadTriedDense` | src/addrman.h:414-433 | entries of the tried table continue the numbering, whether or not some are lost |
| `AddrManReading.ReadConsistent` | src/addrman.h:366-469 | a file of any version, with any number of buckets and any references in them, is read into a consistent manager if it has as many entries as it says, not too many, and no address twice |
| `AddrManReading.ReadRefused` | src/addrman.h:366-392 | a file is refused exactly for a key size other than 32, more than 65536 new or 16384 tried entries, or less data than it announces |
| `AddrManReading.FileLeaves` | src/addrman.h:366-469 | what is left of such a file: every entry says what the file says; each tried slot is held by the first tried entry that belongs there; if the version is not 1 or the file is not for 1024 buckets, each new slot is held by the first new entry whose own source selects it |
| `AddrManRoundTrip.CountsFit` | src/addrman.h:386-392 | a consistent manager never writes a count its reader refuses |
| `AddrManRoundTrip.LoadsNew` | src/addrman.h:394-412 | reading what was written restores the first entries with their addresses |
| `AddrManRoundTrip.LoadsTried` | src/addrman.h:414-433 | no tried entry is lost: every one finds its own slot free |
| `AddrManRoundTrip.LoadsBuckets` | src/addrman.h:435-451 | every reference is read into the slot it came from, and reference counts follow |
| `AddrManRoundTrip.RoundTrip` | src/addrman.h:316-469 | writing a consistent manager and reading it back gives a consistent manager that is the same up to the numbers of its entries: every entry field by field but for the two times not written, addresses, both tables, reference counts and counters |
| `AddrManRoundTrip.RenumberedConsistent` | src/addrman.h:316-469 | a manager that is a renumbering of a consistent one is consistent |
| `AddrManRoundTrip.RoundTripHealthy` | src/addrman.h:316-469 | what is read back without pending collisions is healthy, and its times are in order exactly when the recorded successes were |
| `Mempool.WeightBySize` | src/policy/policy.cpp:260-263 | over any set of transactions weight is at most four times virtual size |
| `Mempool.VirtualSizeLeast` | src/policy/policy.cpp:260-263 | the virtual size is the least number whose fourfold covers both the weight and the sigop cost |
| `Mempool.FewerAncestors` | src/miner.h:98-108 | an ancestor has strictly fewer ancestors, so sorting by ancestor count respects dependencies |
| `MempoolUpdates.AddedValid` | src/txmempool.cpp:240-252 | an entry added with the sums over its ancestors leaves every cached total the exact sum over its package |
| `MempoolUpdates.ErasedValid` | src/txmempool.cpp:262-317 | taking out a transaction without ancestors and lowering its descendants leaves every cached total exact |
| `MempoolUpdates.KeptValid` | src/txmempool.cpp:934-940 | taking out a set nothing else depends on leaves every cached total exact |
| `MempoolUpdates.PrioritisedValid` | src/txmempool.cpp:856-884 | changing a priority leaves every cached total exact |
| `MempoolSpending.InsertedOk` | src/txmempool.cpp:395-400 | the index leads from every output spent in the pool to its one spender, and to no transaction that is not there, after an insertion |
| `MempoolSpending.ErasedOk` | src/txmempool.cpp:428-434 | and after the erasure of all inputs of any set of transactions |
| `MempoolSpending.LinkedRemoved` | src/txmempool.cpp:262-317 | ancestors are exactly what the inputs lead to, also after a removal |
| `MempoolSpending.AncestorsByInputs` | src/txmempool.cpp:369-426 | the ancestors of a transaction are the transactions of the pool whose outputs it spends, and the ancestors of these |
| `MempoolSpending.TxPool.AddUnchecked` | src/txmempool.cpp:369-426 | the loops over the ancestors and the inputs add the entry, change no other, and keep totals, links and index exact |
| `MempoolSpending.TxPool.RemoveMined` | src/txmempool.cpp:262-317 | the loop over the descendants lowers each, the assertions on the lowered totals hold, and totals, links and index stay exact |
| `MempoolSpending.TxPool.RemoveRecursive` | src/txmempool.cpp:482-512 | a transaction of the pool, or else exactly the entries that spend its outputs, go with exactly their descendants; the lookups find entries of the pool |
| `MempoolSpending.TxPool.RemoveConflicts` | src/txmempool.cpp:550-576 | the loop over the inputs removes exactly the other entries that spend the same outputs, with their descendants; nickname registrations stay, also when the coinbase is looked up |
| `MempoolSpending.TxPool.RemoveForBlock` | src/txmempool.cpp:580-607 | connecting a block removes exactly its transactions and what conflicts with it or depends on a conflict; the rest keeps its links without the mined ancestors, and exact totals |
| `MempoolSpending.NothingConflicts` | src/txmempool.cpp:550-607 | afterwards nothing in the pool spends an output the block spends |
| `MempoolSpending.TxPool.Prioritise` | src/txmempool.cpp:856-884 | the loop raises the transaction and exactly its descendants, and all totals stay exact |
| `BlockAssembler.AdjustedRecorded` | src/miner.cpp:935-960 | after every update an entry of the side table records exactly what remains of its package without what was selected since it last failed |
| `BlockAssembler.UpdatedTable` | src/miner.cpp:935-960 | the side table lists exactly the transactions with an ancestor selected since they last failed, also after every selection |
| `BlockAssembler.PaidPlain` | src/miner.cpp:935-960 | without prioritised transactions the recorded fees are the fees of what remains |
| `BlockAssembler.SortForBlock` | src/miner.cpp:977-986 | the result lists exactly the package, sorted by ancestor count |
| `BlockAssembler.SortedTopological` | src/miner.cpp:977-986 | that order puts every transaction after its ancestors in the package |
| `BlockAssembler.ConsideredAfter` | src/miner.cpp:998-1128 | what was considered and refused stays left out as the block grows, unless one of its ancestors is selected |
| `BlockAssembler.FirstRefusal` | src/miner.cpp:1055-1103 | every refusal goes back to a true rejection: then, or at a point with ancestors selected both before and after it |
| `BlockAssembler.LeftOutReason` | src/miner.cpp:1055-1103 | a transaction that was left out does not fit into the final block or is premature, or else it was truly rejected with ancestors selected both before and after |
| `BlockAssembler.RejectionStands` | src/miner.cpp:1055-1103 | what does not fit or is premature stays so as the block grows without its ancestors |
| `BlockAssembler.LeftOutBound` | src/miner.cpp:1055-1103 | stale or not, the whole package of what was left out is too large for the final block, or part of it is premature |
| `BlockAssembler.PackageFits` | src/miner.cpp:891-899 | the limits on virtual size bound the weight and sigops of the extended block |
| `BlockAssembler.Assembler.constructor` | src/miner.cpp:139-160 | the weight limit is the option clamped to its range |
| `BlockAssembler.Assembler.ResetBlock` | src/miner.cpp:164-177 | an empty block, valid for every pool |
| `BlockAssembler.Assembler.AddToBlock` | src/miner.cpp:916-933 | the transaction is appended and the lists of fees and sigops, the set, the counters and the fee total follow |
| `BlockAssembler.Assembler.AddEntries` | src/miner.cpp:1112-1121 | a package is appended in its order, with weight, sigops, the fee total and the lists exact |
| `BlockAssembler.Assembler.SelectPackage` | src/miner.cpp:1093-1127 | a package that fits keeps the block valid and below both limits, is recorded as chosen, and everything refused stays accounted for |
| `BlockAssembler.Assembler.Consider` | src/miner.cpp:1030-1128 | each candidate stops the loop, shrinks what is left to look at, or extends the block |
| `BlockAssembler.Assembler.AddPackageTxs` | src/miner.cpp:998-1128 | for every pool the result is a duplicate-free block in which each transaction follows its in-pool ancestors, below the weight and sigop limits if anything was selected; it grew by exactly the counted packages, each of which, judged by the totals recorded for it, paid enough, fitted and was final when it was chosen; the loop ends, and then every transaction left out was refused with no ancestor selected since, or one was underpaid, or the block is nearly full and more than a thousand were refused; in the last two cases all that the loop had gone through was selected, refused, or has an ancestor selected since it was last judged |
| `BlockAssembler.UpdatePackagesForAdded` | src/miner.cpp:935-960 | exactly the descendants of the selected transactions get entries, each lowered by the selected ancestors and nothing else |
| `CheckQueue.NextKeeps` | src/checkqueue.h:66-124 | every step of every thread keeps the invariant: todo count, conservation of checks, truthful verdict, no lost wakeup |
| `CheckQueue.RunKeeps` | src/checkqueue.h:66-158 | the invariant holds after every interleaving of master and workers |
| `CheckQueue.WaitIsSound` | src/checkqueue.h:140-143 | a returning wait has every added check reported; true only if all ran and were good, false only if one that ran was bad |
| `CheckQueue.MasterAwaited` | src/checkqueue.h:76-101 | todo equals queued plus held checks, and a blocked master without a wakeup means an empty queue and a worker still holding a batch |
| `CheckQueue.AddRouses` | src/checkqueue.h:146-158 | adding several checks wakes every worker that is asleep, adding one wakes one and touches no other, and adding any leaves one of the workers awake |
| `CheckQueue.WorkersRoused` | src/checkqueue.h:66-158 | after every interleaving, if there are checks in the queue and there are workers, one of them is not asleep |
| `CoinsView.GetCoinSound` | src/coins.cpp:57-64 | reading changes no coin at any level, answers from the flat map, and reports a coin exactly when the view answers for it |
| `CoinsView.FetchCoinSound` | src/coins.cpp:40-55 | fetching fills the cache with what the levels below show, and changes no coin |
| `CoinsView.FetchCoinEffect` | src/coins.cpp:40-55 | a read remembers what the view below answers, unmodified and as new exactly when it is spent there, in every cache on the way, and touches no other entry |
| `CoinsView.AddCoinUpdates` | src/coins.cpp:66-85 | adding a spendable coin changes that outpoint alone |
| `CoinsView.AddCoinHonest` | src/coins.cpp:66-85 | adding throws exactly when an unannounced overwrite is visible in the cache; otherwise the flags stay truthful if and only if the overwrite was announced or there was no coin |
| `CoinsView.SpendCoinSound` | src/coins.cpp:98-112 | spending removes that outpoint alone and moves out the coin that was there |
| `CoinsView.SpendCoinEffect` | src/coins.cpp:98-112 | spending succeeds exactly for what the cache or the view below has; a new entry is forgotten, any other is kept as spent and to be written down, and no other entry changes |
| `CoinsView.UncacheSound` | src/coins.cpp:210-217 | an entry leaves the cache exactly when it is neither modified nor new; no coin, no other entry and no best block changes |
| `CoinsView.BatchWriteSound` | src/coins.cpp:145-201 | writing a truthful child never throws, runs into the assertion of the store exactly for a null hash, and otherwise makes the parent stand for what the child stood for |
| `CoinsView.MergedSound` | src/coins.cpp:145-201 | each merged entry keeps truthful flags and shows the child's coin |
| `CoinsView.BatchWriteEffect` | src/coins.cpp:145-201 | a modified child entry replaces the parent's, stays to be written and is new where it was new; it is forgotten exactly when it is spent and the view below never saw it; unmodified ones change nothing |
| `CoinsView.FlushSound` | src/coins.cpp:203-208 | flushing succeeds if and only if there is a cache below or the cache has a best block of its own; then it keeps the view, and the parent becomes the old child view with that best block |
| `CoinsView.GetBestBlockSound` | src/coins.cpp:135-139 | reading the best block caches it and changes nothing else |
| `CoinsView.BestLevels` | src/coins.cpp:135-143 | the best block reported is the first one set from the top down, and asking fills the levels above it |
| `CoinsView.StepRefines` | src/coins.cpp:40-217 | each operation on a stack of caches of any depth acts as on a stack of flat maps with best blocks, and fails exactly when that does: a flush into the store without a best block |
| `CoinsView.RunRefines` | src/coins.cpp:40-217 | every run of a stack of any depth is a run of flat maps with best blocks and fails where that fails; the misapplied-flag error is unreachable for callers that announce overwrites |
| `CoinsCache.Coins.OverStore` | src/txdb.cpp:87-123 | the bottom of a stack: stored coins and a best block |
| `CoinsCache.Coins.constructor` | src/coins.cpp:34 | a new cache over any stack shows what the stack shows |
| `CoinsCache.Coins.GetCoin` | src/coins.cpp:57-64 | the object and its bases move as the specification function; memory use stays exact |
| `CoinsCache.Coins.FetchCoin` | src/coins.cpp:40-55 | the object and its bases move as the specification function; memory use stays exact |
| `CoinsCache.Coins.AddCoin` | src/coins.cpp:66-85 | as specified; when it throws the entries are unchanged but the memory counter has lost the old coin |
| `CoinsCache.Coins.SpendCoin` | src/coins.cpp:98-112 | as specified; memory use stays exact |
| `CoinsCache.Coins.Uncache` | src/coins.cpp:210-217 | as specified; memory use stays exact |
| `CoinsCache.Coins.GetBestBlock` | src/coins.cpp:135-139 | the object and its bases move as the specification function |
| `CoinsCache.Coins.SetBestBlock` | src/coins.cpp:141-143 | the best block is set and nothing else changes |
| `CoinsCache.Coins.BatchWrite` | src/coins.cpp:145-201 | the merging loop computes the specified entries, or fails exactly when some flag is misapplied or a null hash reaches the store |
| `CoinsCache.Coins.Flush` | src/coins.cpp:203-208 | as specified, including when it fails; on success the cache is left empty with exact memory use |
| `CuckooCache.InsertOk` | src/cuckoocache.h:393-440 | insertion keeps every unerased element at one of its own eight positions, and no element twice |
| `CuckooCache.DisplaceConserves` | src/cuckoocache.h:411-440 | a chain of evictions loses at most the element in hand at its end |
| `CuckooCache.InsertConserves` | src/cuckoocache.h:393-440 | insertion conserves the unerased multiset plus the new element, up to one lost element |
| `CuckooCache.VictimNext` | src/cuckoocache.h:417-429 | the eviction chain moves to the next of the eight positions, from none to the second, and never moves the element just put in unless positions coincide |
| `CuckooCache.EpochCheckLeavesRoom` | src/cuckoocache.h:290-322 | after the epoch check there is room under the bound for one more current element |
| `CuckooHistory.EpochCheckEffect` | src/cuckoocache.h:290-322 | a live element becomes erasable exactly when it is of the old epoch, the countdown is zero and the current epoch is full; current elements stay live and become old exactly then; the next scan is due when the epoch could be full at the earliest |
| `CuckooCache.InsertStepKeeps` | src/cuckoocache.h:393-440 | current-epoch count plus countdown stays within epoch_size + max(1, epoch_size/16) |
| `CuckooCache.LiveContained` | src/cuckoocache.h:468-478 | every unerased element is found |
| `CuckooCache.ContainsExactly` | src/cuckoocache.h:468-478 | a lookup succeeds exactly when one of the element's eight slots holds it |
| `CuckooHistory.ContainsMembership` | src/cuckoocache.h:468-478 | in a reachable table that is exactly when the element is anywhere in it |
| `CuckooHistory.FoundWasInserted` | src/cuckoocache.h:341-478 | over every run from set-up, an element that is found was inserted in that run or is the default element |
| `CuckooHistory.InsertMoves` | src/cuckoocache.h:393-440 | insertion leaves the element live in the current epoch and every other with the epoch it had, except one that is lost |
| `CuckooHistory.EraseMoves` | src/cuckoocache.h:468-478 | erasing makes that element erasable and touches no other |
| `CuckooHistory.LifeOfElement` | src/cuckoocache.h:290-478 | over every run after its insertion, an element neither erased nor lost is live and found until a second epoch ends, and one not inserted again is erasable once a second epoch has ended |
| `CuckooCache.InsertedContained` | src/cuckoocache.h:376-440 | an inserted element is found unless it was the one lost |
| `CuckooCache.EraseKeeps` | src/cuckoocache.h:468-478 | erasing marks at most one copy and leaves it findable |
| `CuckooCache.RunKeeps` | src/cuckoocache.h:290-478 | after every run of insertions and erasures the placement and epoch invariants hold and every unerased element is found |
| `CuckooCache.Cache.constructor` | src/cuckoocache.h:341-354 | a set-up cache is valid, empty and holds only the default element, with an epoch of 45 percent in 32-bit arithmetic |
| `CuckooCache.Cache.CheckEpoch` | src/cuckoocache.h:290-322 | the loops compute the epoch check, whose effect on the flags is EpochCheckEffect |
| `CuckooCache.Cache.InsertElement` | src/cuckoocache.h:393-440 | the displacement loop computes the specified insertion and keeps the cache valid |
| `CuckooCache.Cache.ContainsElement` | src/cuckoocache.h:468-478 | the loop finds the element exactly when one of its eight slots holds it, and erases at most one copy |
| `MerkleTree.NodeExists` | src/merkleblock.h:66-68 | a node exists at a height exactly when its first leaf does |
| `MerkleTree.NodesDiffer` | src/merkleblock.cpp:40-58 | without hash collisions different nodes of one height have different hashes |
| `MerkleTree.ExtractGenuine` | src/merkleblock.cpp:78-114 | a node that decodes, from any bits and hashes, to the block's hash reports only the block's transactions at their positions |
| `MerkleTree.ExtractAscends` | src/merkleblock.cpp:78-114 | any decoding reports positions of the node's own leaves only, strictly ascending |
| `MerkleTree.ExtractBuilt` | src/merkleblock.cpp:60-114 | decoding an encoded node yields its hash and exactly its matches, and consumes exactly the encoding |
| `MerkleTree.HashesBounded` | src/merkleblock.h:34-41 | an encoding stores at most one hash per leaf below it, and at most 1 + matches * height |
| `PartialMerkleTree.PackedRoundTrip` | src/merkleblock.h:88-105 | unpacking packed flags gives the flags followed by fewer than eight clear bits |
| `PartialMerkleTree.PackBits` | src/merkleblock.h:99-102 | bytes hold the flags least significant bit first, padded with zeros |
| `PartialMerkleTree.UnpackBits` | src/merkleblock.h:92-97 | one flag per bit, in order |
| `PartialMerkleTree.EncodingBounded` | src/merkleblock.h:34-41 | a tree stores at most min(n, 1 + matches * height) hashes |
| `PartialMerkleTree.HeightCovers` | src/merkleblock.cpp:121-124 | the tree is as high as its leaves need and no higher |
| `PartialMerkleTree.RoundTrip` | src/merkleblock.cpp:40-163 | build, pack, unpack and extract returns the root and exactly the matched ids with their positions in order |
| `PartialMerkleTree.Sound` | src/merkleblock.cpp:132-163 | any partial tree with the block's transaction count that reads as the block's root reports only the block's transactions, each at its position, none twice |
| `PartialMerkleTree.NothingToSpare` | src/merkleblock.cpp:132-163 | of the partial trees that begin alike one at most is accepted: a hash or a byte of flags to spare is refused |
| `PartialMerkleTree.RefusedUnread` | src/merkleblock.cpp:132-148 | no transactions, more than 600000, more hashes than transactions or than flags: refused with nothing reported |
| `PartialMerkleTree.Tree.constructor` | src/merkleblock.cpp:116-128 | the built object holds the encoding of the transactions and the mask |
| `PartialMerkleTree.Tree.Empty` | src/merkleblock.cpp:130 | the default object is marked bad |
| `PartialMerkleTree.Tree.TreeHeight` | src/merkleblock.cpp:121-124 | the lowest height with a single node |
| `PartialMerkleTree.Tree.TraverseAndBuild` | src/merkleblock.cpp:60-76 | appends exactly the encoding of the node |
| `PartialMerkleTree.Tree.TraverseAndExtract` | src/merkleblock.cpp:78-114 | decodes as specified, advancing both cursors and setting the error flag |
| `PartialMerkleTree.Tree.ExtractMatches` | src/merkleblock.cpp:132-163 | all eight checks as specified; the match list is cleared, the index list is appended to |
| `PartialMerkleTree.Tree.Serialize` | src/merkleblock.h:85-105 | count, hashes and packed flags |
| `PartialMerkleTree.Tree.Unserialize` | src/merkleblock.h:85-105 | count, hashes and unpacked flags, not bad |
| `PartialMerkleTree.SendAndRead` | src/merkleblock.cpp:40-163 | one object built and sent, another filled and read, returns the root and exactly the matches |
| `Uint256.BaseUint.Assign` | src/arith_uint256.h:94-101 | the value becomes the 64-bit number |
| `Uint256.BaseUint.Add` | src/arith_uint256.h:141-151 | the carry loop adds modulo 2^BITS, also when both operands are one object |
| `Uint256.BaseUint.Increment` | src/arith_uint256.h:179-186 | the wrapping loop adds one modulo 2^BITS |
| `Uint256.BaseUint.Complement` | src/arith_uint256.h:75-81 | 2^BITS - 1 minus the value |
| `Uint256.BaseUint.Negate` | src/arith_uint256.h:83-90 | the negative modulo 2^BITS |
| `Uint256.BaseUint.Subtract` | src/arith_uint256.h:153-157 | the difference modulo 2^BITS, exact when not negative |
| `Uint256.BaseUint.MultiplyWord` | src/arith_uint256.cpp:57-67 | the product with a word modulo 2^BITS; the 64-bit intermediate never overflows |
| `Uint256.BaseUint.Multiply` | src/arith_uint256.cpp:69-83 | the product modulo 2^BITS; the 64-bit intermediate never overflows |
| `Uint256.BaseUint.CompareTo` | src/arith_uint256.cpp:111-121 | the sign of the difference |
| `Uint256.BaseUint.EqualTo` | src/arith_uint256.cpp:123-135 | equality with a 64-bit number |
| `Uint256.BaseUint.Bits` | src/arith_uint256.cpp:173-187 | the least number of bits that holds the value |
| `Uint256.BaseUint.ShiftLeft` | src/arith_uint256.cpp:23-38 | multiplication by 2^shift modulo 2^BITS, for every shift |
| `Uint256.BaseUint.ShiftRight` | src/arith_uint256.cpp:40-55 | floor division by 2^shift, for every shift |
| `Uint256.BaseUint.Divide` | src/arith_uint256.cpp:85-109 | floor division for every nonzero divisor; it throws exactly on zero, leaving zero |
| `CompactTarget.OverflowExact` | src/arith_uint256.cpp:206-224 | the overflow flag is set exactly when mantissa * 256^(size-3) is at least 2^256 |
| `CompactTarget.SetCompact` | src/arith_uint256.cpp:206-224 | the value meant modulo 2^256, and both flags exact |
| `CompactTarget.GetCompact` | src/arith_uint256.cpp:226-247 | the compact form with its sign bit; both assertions hold |
| `CompactTarget.CompactDecodes` | src/arith_uint256.cpp:206-247 | decoding the compact form gives the number without its bytes below the leading three, and sets no flag |
| `CompactTarget.PartsExact` | src/arith_uint256.cpp:206-224 | a size byte, a sign bit and 23 bits of mantissa are all of a compact value |
| `CompactTarget.NegativeDecodes` | src/arith_uint256.cpp:206-247 | a nonzero number written as negative decodes to the same truncation with the negative flag |
| `CompactTarget.NegativeExact` | src/arith_uint256.cpp:206-224 | the negative flag is set exactly when the sign bit is set and the number meant is not zero |
| `CompactTarget.Recode` | src/arith_uint256.cpp:206-247 | what was decoded encodes to the same compact form |
| `CompactTarget.CompactMonotone` | src/arith_uint256.cpp:226-247 | a larger number never has a smaller compact form |
| `CompactTarget.TargetBelowMax` | src/chain.cpp:136-149 | a target that does not overflow can be incremented, so there is never a division by zero |
| `CompactTarget.GetBlockProof` | src/chain.cpp:136-149 | floor(2^256 / (target + 1)), or zero for a negative, overflowing or zero target |
| `SkipHeights.InvertLowestOneClears` | src/chain.cpp:69-70 | n & (n - 1) subtracts the lowest bit that is set |
| `SkipHeights.SkipHeight` | src/chain.cpp:72-81 | a skip leads strictly back |
| `SkipHeights.NextPays` | src/chain.cpp:83-108 | every step of the walk lowers a potential: the place where the two heights part, and a weight of the bits below it |
| `SkipHeights.NextChoice` | src/chain.cpp:83-108 | the walk takes the skip unless that passes the target, or the predecessor's skip leads further by more than two without passing it |
| `SkipHeights.WalkBound` | src/chain.cpp:72-108 | from any height below 2^k to any lower one the walk takes at most k(k + 9)/2 steps |
| `Chain.BlockIndex.GetAncestor` | src/chain.cpp:83-108 | the mixture of skips and steps is repeated pprev, or null out of range, in as many steps as the walk over heights takes when all skip pointers are in place |
| `Chain.BlockIndex.BuildSkip` | src/chain.cpp:130-134 | the skip pointer becomes the ancestor it stands for, and all others stay right |
| `Chain.AddBlock` | src/validation.cpp:3183-3197 | growing the tree by a block keeps every skip pointer right and in place |
| `Chain.ActiveChain.SetTip` | src/chain.cpp:11-21 | whatever the chain was before, the vector is exactly the path of the tip |
| `Chain.ActiveChain.FindFork` | src/chain.cpp:51-60 | the result is on the chain and on the block's path, and no higher block is on both |
| `Chain.ActiveChain.GetLocator` | src/chain.cpp:23-49 | strictly descending ancestors from the block to genesis, entry n exactly at the height of eleven single steps and then doubling ones, at most 12 + floor(log2(height)) of them |
| `Chain.LastCommonAncestor` | src/chain.cpp:168-185 | the highest common ancestor, or null if there is none; the final assertion holds |
| `RollingBloom.MaskClears` | src/bloom.cpp:258-264 | the masks clear a cell exactly when it holds the generation being reused |
| `RollingBloom.RollKeeps` | src/bloom.cpp:250-265 | starting a generation keeps all keys of the last two |
| `RollingBloom.PutKeeps` | src/bloom.cpp:268-275 | overwriting cells with the current generation loses no recent key |
| `RollingBloom.Filter.constructor` | src/bloom.cpp:216-241 | an empty filter with room for at least nElements keys in two generations |
| `RollingBloom.Filter.Reset` | src/bloom.cpp:304-312 | all cells and the log are empty |
| `RollingBloom.Filter.Wipe` | src/bloom.cpp:258-264 | exactly the cells of one generation are cleared |
| `RollingBloom.Filter.Roll` | src/bloom.cpp:250-265 | the next generation starts and only the oldest is forgotten |
| `RollingBloom.Filter.PutCell` | src/bloom.cpp:269-274 | exactly one cell changes, to the current generation |
| `RollingBloom.Filter.Insert` | src/bloom.cpp:248-276 | the key joins the log and every key of the last two full generations and the current one is still held; exactly the cells its hashes select become the current generation, and a full generation first wipes exactly the cells of the reused number |
| `RollingBloom.Filter.Contains` | src/bloom.cpp:284-296 | true exactly when all cells of the key are set, hence for each of the last nElements inserted keys and more |
| `IndexCoding.RoundTrip` | src/blockencodings.h:37-69 | a request for 16-bit indexes is read back if and only if they increase strictly, and is refused otherwise |
| `IndexCoding.ReadExact` | src/blockencodings.h:42-61 | of the messages of any origin exactly those are read as increasing indexes whose numbers, with one for each, add up to at most 2^16; they are read as the sums and are what would be written for them |
| `IndexCoding.StartsAgain` | src/blockencodings.h:54-61 | after the index 65535 the 16-bit offset wraps, so a further number is accepted and stands for itself |
| `IndexCoding.Write` | src/blockencodings.h:62-67 | writes the differences, in 64-bit arithmetic |
| `IndexCoding.Read` | src/blockencodings.h:42-61 | the loops read the specified indexes, or refuse a number or an index that overflows 16 bits |
| `CompactBlocks.PositionsIncrease` | src/blockencodings.cpp:58-74 | prefilled positions are strictly increasing |
| `CompactBlocks.Prefill` | src/blockencodings.cpp:58-74 | accepts exactly the lists whose positions are in range and whose transactions are not null, and puts each in its place |
| `CompactBlocks.MapShortIds` | src/blockencodings.cpp:80-102 | for lists of every length, the i-th short id is mapped to the i-th empty slot modulo 65536 if no two are equal, and the map is smaller than the list if and only if two are; crowding is reported exactly |
| `CompactBlocks.ScanPool` | src/blockencodings.cpp:104-132 | a slot named by a short id is left alone if no scanned pool transaction has that id, takes the transaction if exactly one has, and is emptied if several have; the scan ends early only when all slots are filled |
| `CompactBlocks.ScanExtra` | src/blockencodings.cpp:134-163 | a slot keeps what it had, or the first extra transaction for it, as long as all further ones have the same witness hash |
| `BlockReconstruction.PositionsFit` | src/blockencodings.cpp:80-85 | slots stored in 16 bits are right for all short ids if and only if the block has at most 65536 transactions |
| `BlockReconstruction.ReachExact` | src/blockencodings.cpp:81-85 | the loop that counts 16-bit offsets comes to an empty slot for every short id, and to its own, if and only if fewer than 65536 transactions are prefilled or there are no short ids |
| `BlockReconstruction.SearchRunsOn` | src/blockencodings.cpp:81-85 | with 65536 prefilled transactions the guard of that loop holds in every round |
| `BlockReconstruction.EndlessSearch` | src/blockencodings.cpp:48-85 | a well-formed compact block for which that happens |
| `BlockReconstruction.BeyondStaysEmpty` | src/blockencodings.cpp:80-163 | beyond position 65536 every slot stays empty, whatever is at hand |
| `BlockReconstruction.WronglyFilled` | src/blockencodings.cpp:80-163 | the transaction for such a slot goes to the position modulo 65536 instead, even over a prefilled one |
| `BlockReconstruction.ScansReceive` | src/blockencodings.cpp:104-163 | the two scans leave every position with the specified choice, and the counter is the number of slots they filled |
| `BlockReconstruction.ReceivedRight` | src/blockencodings.cpp:48-168 | without short id collisions, in blocks of at most 65536 transactions, everything at hand after initialisation is a transaction of the block in its place |
| `BlockReconstruction.MergeMissing` | src/blockencodings.cpp:176-197 | a part of a block completed by what it lacks, in order, is the block |
| `BlockReconstruction.PartialBlock.InitData` | src/blockencodings.cpp:48-168 | for blocks of every length, the status is decided exactly by well-formedness, equal short ids and bucket crowding; an OK leaves exactly the prefilled transactions and, in each slot, the only pool transaction with its short id, or the first extra one, if all extra ones agree with it; the scans end early only when every short id has its transaction |
| `BlockReconstruction.PartialBlock.FillBlock` | src/blockencodings.cpp:176-214 | the merged block and the verdict of the block check if the count is right; invalid otherwise, and the object is used up unless transactions were lacking |
| `BlockReconstruction.Compress` | src/blockencodings.cpp:18-28 | the compact form describes the block: the coinbase prefilled, short ids for the rest |
| `BlockReconstruction.Relay` | src/blockencodings.cpp:18-214 | a block sent in compact form, taken in with status OK and completed is the original block |
| `MessageFraming.ChunkingIndependent` | src/net.cpp:808-858 | messages, bytes per command and verdict do not depend on how the stream is cut into chunks |
| `MessageFraming.TakenFeeds` | src/net.cpp:887-933 | taking many bytes at once is taking them one by one, and at least one is taken |
| `MessageFraming.FramesArrive` | src/net.cpp:808-933 | a stream of whole messages arrives as those messages, each with exactly its payload, all counted |
| `MessageStreams.TotalsGrow` | src/net.cpp:808-858 | whole messages add exactly their length on the wire to the totals: each listed command that of its own messages, the entry for others its own and all unlisted ones, together every byte once |
| `MessageStreams.StreamArrives` | src/net.cpp:808-933 | any stream of bytes is whole messages, which arrive with exactly their payloads and are counted byte for byte, and a rest that is the open message; it is refused exactly when that begins with a header that cannot be read or announces more than 32 MiB |
| `MessageFraming.NetMessage.ReadHeader` | src/net.cpp:887-916 | takes what the header still lacks, and refuses a header that cannot be read or is too large |
| `MessageFraming.NetMessage.ReadData` | src/net.cpp:918-933 | takes what the payload still lacks; the buffer never exceeds the message, and the hasher gets exactly the payload |
| `MessageFraming.NetMessage.IsComplete` | src/net.h:604-609 | a complete message's buffer is exactly its payload |
| `MessageFraming.Node.ReceiveMsgBytes` | src/net.cpp:808-858 | a chunk moves the receiver as its bytes do one by one; complete is reported exactly when a message was completed |
| `Digits.MultiplyAdd` | src/base58.cpp:96-109 | the carry loop multiplies and adds on the digits in use, and nothing is carried out of a buffer that is large enough |
| `Base58.EncodeRoom` | src/base58.cpp:92-93 | n * 138 / 100 + 1 base-58 digits hold every n-byte number |
| `Base58.DecodeRoom` | src/base58.cpp:46-47 | n * 733 / 1000 + 1 bytes hold every number of n base-58 digits |
| `Base58.CharMatches` | src/base58.cpp:13-32 | the decoding table undoes the alphabet, and only zero is written as 1 |
| `Base58.DecodeEncoded` | src/base58.cpp:34-121 | every byte string comes back from its encoding |
| `Base58.EncodeDecoded` | src/base58.cpp:34-121 | text that decodes is what its bytes encode to, apart from surrounding spaces |
| `Base58.DecodeExact` | src/base58.cpp:34-121 | text decodes to some bytes exactly when it is their encoding with white space around it |
| `Base58.Encode` | src/base58.cpp:83-121 | the loops compute the specified text; the carry assertion holds |
| `Base58.Decode` | src/base58.cpp:34-81 | the loops compute the specified bytes or refuse; the carry assertion holds |
| `Bech32Checksum.StepLinear` | src/bech32.cpp:78-91 | one step of the checksum is linear over GF(2) |
| `Bech32Checksum.StepInjective` | src/bech32.cpp:78-91 | a step sends nothing but zero to zero |
| `Bech32Checksum.SingleChange` | src/bech32.cpp:37-94 | changing any single symbol changes the checksum |
| `Bech32Linear.StepTimes` | src/bech32.cpp:78-91 | a step commutes with the multiplication of every symbol by {2}, so it is linear over GF(32) |
| `Bech32Field.NoPeriod` | src/bech32.cpp:44-49 | in GF(1024) multiplication by e has no period below 1023 on anything but zero |
| `Bech32Errors.StepValue` | src/bech32.cpp:54-91 | the generator vanishes at e^997, e^998 and e^999: a step multiplies the value of the remainder there by that power and adds the symbol |
| `Bech32Errors.SymbolHigh` | src/bech32.cpp:44-49 | no symbol times a power of x from 1 to 1022 is again a symbol modulo the generator |
| `Bech32Errors.TwoChanges` | src/bech32.cpp:44-49 | changing any two symbols within a window of 1023 changes the checksum |
| `Bech32Errors.ThreeChanges` | src/bech32.cpp:44-49 | changing any three symbols within a window of 1023 changes the checksum |
| `Bech32Four.TermsBalanced` | src/bech32.cpp:44-49 | if four changes cancel, the logarithms of the six differences of positions meet three conditions modulo 33 |
| `Bech32Four.NoneBalanced` | src/bech32.cpp:44-49 | no four positions within a window of 89 meet them |
| `Bech32Errors.FourChanges` | src/bech32.cpp:44-49 | changing any four symbols within a window of 89 changes the checksum |
| `Bech32Errors.FewChanges` | src/bech32.cpp:44-49 | all of it together: up to three changes within 1023 symbols, or four within 89, are detected |
| `Bech32Checksum.ChecksumVerifies` | src/bech32.cpp:128-139 | with the created checksum every word has remainder one |
| `Bech32.CharsetDecodes` | src/bech32.cpp:11-25 | the decoding table undoes the character set, and no data character is the separator |
| `Bech32.RoundTrip` | src/bech32.cpp:147-189 | decoding undoes encoding if and only if the human-readable part is nonempty, printable and without upper case and the length is at most 90 |
| `Bech32Checksum.ChecksumUnique` | src/bech32.cpp:128-139 | the six symbols appended are the only ones that verify |
| `Bech32Text.CaseIgnored` | src/bech32.cpp:159-189 | capitals and small letters are not distinguished, and a mixture is refused |
| `Bech32Text.DecodeExact` | src/bech32.cpp:147-189 | text decodes to a human-readable part and data exactly when, capitals made small, it is their encoding, the part is readable, the text has at most 90 characters and does not mix cases |
| `Bech32.WrongCharacter` | src/bech32.cpp:159-189 | a string that decodes stops decoding when one data character is replaced by any but the separator that stands for another symbol or none |
| `Bech32.TwoWrongCharacters` | src/bech32.cpp:159-189 | a string that decodes stops decoding when any two data characters are replaced in that way |
| `Bech32.WrongCharacters` | src/bech32.cpp:159-189 | the same for up to four data characters |
| `Bech32.WrongHrpCharacter` | src/bech32.cpp:102-115 | a string that decodes stops decoding when a character of the human-readable part is replaced by another, case aside, and perhaps a data character as well |
| `Bech32.TwoWrongHrpCharacters` | src/bech32.cpp:102-115 | the same for two characters of a human-readable part of up to 44 |
| `Bech32.WrongString` | src/bech32.cpp:102-189 | in general: wrong characters that leave the separator in place and touch at most four symbols within 89, or three within 1023, are noticed |
| `Bech32.PolyMod` | src/bech32.cpp:37-94 | the loop computes the remainder |
| `Bech32.ExpandHRP` | src/bech32.cpp:102-115 | high bits, a zero, low bits |
| `Bech32.CreateChecksum` | src/bech32.cpp:128-139 | the loop cuts the specified six symbols |
| `Bech32.Encode` | src/bech32.cpp:147-156 | the loop writes the specified text |
| `Bech32.Decode` | src/bech32.cpp:159-189 | the loops read the specified result |

## Left out

- Select_: the random search for an address to connect to, whose termination is probabilistic, and GetChance, which is floating point.
- AddrMan.Manager.Unserialize: what is left of the manager after the data ended early is not stated beyond its shape.
- AddrManRoundTrip.RoundTrip: does not restore nLastTry, nLastCountAttempt, nLastGood and the random order, because they are not written; it states what they are afterwards.
- Id overflow: entry ids of the address manager are unbounded, where the source counts in 32 bits.
- BlockAssembler.Assembler.AddPackageTxs: does not state fee-rate optimality, because prioritised transactions make the two update paths use different fees.
- Descendant totals, stored priorities, fee estimates, size limits, expiry and reorganisations of the memory pool.
- Coinbase construction, price information and the mining threads of src/miner.cpp.
- CheckQueue.NextKeeps: threads are values in a state machine, so the destruction of checks and exceptions inside a check are not modelled.
- CoinsCache.Coins.Flush: a store write always succeeds; interrupted database writes and head blocks are not modelled.
- CoinsCache.Coins.constructor: memory use counts the coins' scripts only, not the map's own allocation.
- CuckooCache.Cache.constructor: the depth limit, a base-2 logarithm in floating point, is a parameter; the packed atomic flags are sequences of booleans, and concurrent erasure is not modelled.
- PartialMerkleTree.Tree.constructor: node positions are unbounded, where the source shifts 32-bit numbers; reading refuses more than 600000 transactions.
- The remark that flag bits number at most twice the leaves minus one (src/merkleblock.h:47): nodes with a single child add bits.
- Hexadecimal text and floating-point conversion of 256-bit numbers, and GetBlockProofEquivalentTime.
- Chain.BlockIndex.GetAncestor: the predecessor and height of a block are fixed when it is created.
- FindEarliestAtLeast of the active chain, a library binary search.
- RollingBloom.Filter.constructor: the number of words and of hash functions, computed in floating point, are parameters; false positive rates are not modelled.
- BlockReconstruction.PartialBlock.InitData: excludes exactly 65536 acceptable prefilled transactions followed by short ids, for which the search does not end (`EndlessSearch`); the object must be new, since its pool counter is never reset; the counter of extra transactions, used only for logging, is not modelled; crowding of a hash bucket is an input.
- BlockReconstruction.PartialBlock.FillBlock: what remains of the object after too few transactions were supplied is not stated beyond its header.
- The serialization of headers, short ids and transactions.
- MessageFraming.Node.ReceiveMsgBytes: the total of bytes received and the receive times depend on the chunks and are not modelled; the 12-byte command is a number.
- Base58.Decode: the text is a C string, without a null character.
- Base58Check and address formats, which add a hash to Base58.
- Networking, storage, wallets, RPC, consensus rules and cryptography.
