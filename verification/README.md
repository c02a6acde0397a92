# A verified model of Defcoin Core's algorithms

Defcoin Core is a full node derived from Bitcoin and Litecoin. This project models the self-contained
algorithms and data structures under `source/src` in Dafny 4.11, each in the form the C++ has (classes with
mutable fields and arrays, loops with invariants, recursive functions), and proves what they are for.

    dafny verify dfyconfig.toml

| file | what it models |
|---|---|
| `Basics.dfy` | options and extrema |
| `CheckQueue.dfy` | the script-check queue as interleaved steps of a master and any number of workers |
| `AddrTables.dfy`, `AddrCapacity.dfy`, `AddrMan.dfy` | the address manager: its five indexes and two counters as values, how much they can hold, and the class that changes them |
| `Coins.dfy` | stacks of UTXO caches with DIRTY and FRESH flags over a database |
| `Miner.dfy` | block template selection by ancestor packages |
| `BitFlags.dfy`, `Cuckoo.dfy` | the packed collection flags and the cuckoo cache |
| `Merkle.dfy` | partial Merkle trees (the "Partial Merkle branch format" section of BIP 37) and the level-by-level Merkle root |
| `Bloom.dfy` | the rolling bloom filter |
| `Numbers.dfy`, `Limbs.dfy`, `Arith.dfy` | 256-bit arithmetic on 32-bit limbs, compact targets and block proofs |
| `Chain.dfy` | block index skip lists, the active chain and locators |
| `Radix.dfy`, `Base58.dfy` | Base58 |
| `Bech32.dfy`, `Bech32Vectors.dfy` | Bech32 and Bech32m (BIP 173 and BIP 350), and two of their test vectors |

What comes from outside is a parameter: clocks and times, keyed hashes (arbitrary functions; the Merkle hash is
injective only where a property says so), which addresses are routable, the answers of a cache's backing view,
whether an MWEB transaction is accepted, the fee rate test. Random choices are arbitrary choices. Integers are
unbounded, and the 32-bit and 64-bit limits of the arithmetic, cuckoo and bloom code are written out.

Several specifications are written so that the verifier sees them by name only: a function chosen by `:|` under a
predicate that pins it down (`Mul`, `Quot`, `Xor`, `Step`, `Locs`, ...), beside a lemma that says what it is (`MulIs`, `XorIs`,
`StepIs`, `LocsAre`, ...). Predicates under a quantifier with a trigger of its own (`Chained`, and those that `Ready`, `Tracked` and `Underway`
are chosen by) serve the same end.

Where code and comments differ, the model follows the code:

- `cuckoocache.h:417-423` says that the first exchange of an insertion goes to the first position; the index that
  is computed is 1, so it goes to the second (`Cuckoo.NextLocIs`).
- `merkleblock.h:51` bounds the flag bits of a proof by two for each hash less one; nodes with a single child need one
  more each (`Merkle.FlagBits`, `Merkle.TooManyFlagBits`).
- `validation.cpp:1501` takes the result of SpendCoin for success; it is also true for an entry that is already spent
  (`Coins.SpendExactly`, `Coins.SpendTwice`).
- `Clear` of the address manager keeps the pending collisions (`AddrMan.AddrMan.Clear`).
- `SelectTriedCollision_` looks up the raw value of a slot, which may be empty; its contract says exactly when the
  indexes still agree afterwards, `AddrMan.SelectionCanFail` gives a run where they do not, and
  `AddrMan.ResolveThenSelect` the way to call it safely.

## Model

| member | source | states |
|---|---|---|
| `CheckQueue.EveryRun` | source/src/checkqueue.h:66-157 | every state of every interleaving of one master and any number of workers, with spurious wake-ups, satisfies the protocol invariant: nTodo is the queued checks plus the checks in unaccounted batches, the thread counters are exact, and both verdict directions are accounted for; and while checks are queued the workers are not all asleep without a notification |
| `CheckQueue.NextKeeps` | source/src/checkqueue.h:66-157 | each single step keeps the invariant and never divides by a non-positive number of threads |
| `CheckQueue.InitInv` | source/src/checkqueue.h:130-130 | a new queue satisfies the invariant |
| `CheckQueue.RunKeeps` | source/src/checkqueue.h:66-157 | a run from any consistent and attended state stays so |
| `CheckQueue.WaitVerdict` | source/src/checkqueue.h:89-96 | Wait returns true if and only if every check added since the last Wait passes; when true, each ran exactly as often as it was added; when false, a check that really ran failed; the queue is left clean |
| `CheckQueue.RunAtMostOnce` | source/src/checkqueue.h:104-121 | no check runs more often than it was added |
| `CheckQueue.NoLostWakeup` | source/src/checkqueue.h:75-113 | a master blocked without a notification sees an empty queue, nTodo > 0 and a worker with a non-empty batch |
| `CheckQueue.WaitIsNeverStuck` | source/src/checkqueue.h:75-113 | while Wait is running some thread can always take a step |
| `CheckQueue.RankDecreases` | source/src/checkqueue.h:66-123 | every step of a thread that is neither the return of Wait nor a wake-up for no reason lowers a natural measure of the remaining work |
| `CheckQueue.SpuriousRank` | source/src/checkqueue.h:98-98 | a wake-up for no reason raises that measure by exactly one |
| `CheckQueue.WaitTerminates` | source/src/checkqueue.h:66-123 | a run in which Wait has not returned is no longer than that measure and two steps for each wake-up for no reason |
| `CheckQueue.AddKeeps` | source/src/checkqueue.h:145-157 | Add keeps the protocol invariant, whichever worker its notification reaches |
| `CheckQueue.AddWakes` | source/src/checkqueue.h:145-157 | Add of several checks wakes every sleeping worker, Add of one check exactly one, and nobody else is touched |
| `CheckQueue.StaysAttended` | source/src/checkqueue.h:66-157 | every step keeps some worker awake while checks are queued: a worker goes to sleep on an empty queue only, and Add on sleeping workers wakes one |
| `CheckQueue.WorkersAreNeverStuck` | source/src/checkqueue.h:75-121 | while checks are queued some worker can take a step, whatever the master does |
| `CheckQueue.PopBackConserves` | source/src/checkqueue.h:104-111 | taking a batch off the stack loses and duplicates nothing |
| `CheckQueue.BatchSize` | source/src/checkqueue.h:101-106 | a batch has between 1 and nBatchSize checks and never more than the queue |
| `CheckQueue.FailureSkipsQueue` | source/src/checkqueue.h:114-121 | once a failure is accounted for, no queued or added check is run before Wait returns; only batches taken before may be executed |
| `CheckQueue.BatchIsShare` | source/src/checkqueue.h:101-106 | a batch is the largest share, up to nBatchSize, of which the queue has one for each thread, one more for each idle thread and one to spare |
| `CheckQueue.CCheckQueue.constructor` | source/src/checkqueue.h:130-130 | a new queue is the initial protected state |
| `CheckQueue.CCheckQueue.Add` | source/src/checkqueue.h:145-157 | the new protected state is the old one with the checks pushed and counted |
| `CheckQueue.CCheckQueue.CleanUpPrevious` | source/src/checkqueue.h:77-86 | accounts a finished batch or a new thread, and notifies the master exactly when a worker brought nTodo to zero |
| `CheckQueue.CCheckQueue.TakeWork` | source/src/checkqueue.h:88-116 | the three ways out of the critical section: return the verdict, block, or leave with a batch |
| `CheckQueue.CCheckQueue.WakeUp` | source/src/checkqueue.h:97-100 | after cond.wait the section goes on as if it had just been entered, with one idle thread less |
| `CheckQueue.Execute` | source/src/checkqueue.h:118-121 | the batch loop gives the conjunction of the checks, and exactly the checks up to the first failure are run |
| `AddrMan.RunAll` | source/src/addrman.cpp:87-693 | after any sequence of additions, good marks, removals, attempts, address requests, collision resolutions, each with or without a selection right after it, and clears on a new manager, all five indexes and both counters agree, no assert of the code fired, and there are at most 16384 tried entries, 65536 new ones and ten pending collisions |
| `AddrCapacity.Capacity` | source/src/addrman.h:218-224 | agreeing indexes hold no more tried and new entries than the two tables have positions |
| `AddrCapacity.GoodPending` | source/src/addrman.cpp:305-312 | a pending collision is added only while there are fewer than ten |
| `AddrTables.CheckPasses` | source/src/addrman.cpp:496-570 | on agreeing indexes none of the error conditions -1 to -15 and -17 to -19 of Check_ holds |
| `AddrTables.KeptIsRight` | source/src/addrman.cpp:573-596 | what GetAddr_ collects is exactly the entries that are not terrible among those visited, each once, with time and services |
| `AddrTables.TerribleMeans` | source/src/addrman.cpp:39-57 | terrible if and only if not tried in the last minute, and from the future, not seen for thirty days, tried three times without a success, or ten times with none for a week |
| `AddrTables.ConnectedIsNotTerrible` | source/src/addrman.cpp:41-42 | an address that was just marked good is not terrible for another minute |
| `AddrTables.Limit` | source/src/addrman.cpp:575-581 | the largest number within max_addresses and max_pct percent, where these are given |
| `AddrTables.GoodIsTried` | source/src/addrman.cpp:255-319 | marking good without the test files the address in its own tried slot, and every tried entry it displaced is still an entry |
| `AddrTables.AddKeepsOwn` | source/src/addrman.cpp:321-392 | Add_ never files an IP under another port than it had |
| `AddrTables.EvictionSlot` | source/src/addrman.cpp:223-243 | the new-table slot of an entry evicted from the tried table can be cleared for it |
| `AddrTables.NothingUnder` | source/src/addrman.h:631-648 | after removing the one entry of an IP, nothing is filed under that IP and the others are untouched |
| `AddrMan.AddrMan.constructor` | source/src/addrman.h:586-589 | a new manager is empty and its indexes agree |
| `AddrMan.AddrMan.Clear` | source/src/addrman.h:562-584 | an empty manager under a new key, with the pending collisions kept |
| `AddrMan.AddrMan.Create` | source/src/addrman.cpp:87-97 | a fresh id, filed in three indexes and counted in no table yet |
| `AddrTables.FreshMeans` | source/src/addrman.h:31-72 | an entry starts without a success, a try or a place, and is not terrible if its time is within the last thirty days |
| `AddrMan.AddrMan.SwapRandom` | source/src/addrman.cpp:99-117 | two ids change places in vRandom and in their entries |
| `AddrMan.AddrMan.Delete` | source/src/addrman.cpp:119-131 | exactly the one entry goes and all indexes still agree |
| `AddrMan.AddrMan.Remove_` | source/src/addrman.cpp:133-190 | true exactly for a known id; then exactly that entry and all its slots in both tables go, and it is no longer pending |
| `AddrMan.AddrMan.ClearNew` | source/src/addrman.cpp:192-205 | one new slot is emptied; its entry goes exactly when that was its last reference |
| `AddrMan.AddrMan.MakeTried` | source/src/addrman.cpp:207-253 | the entry ends up in its own tried slot with no new references, and whoever sat there moves to its own new slot; every other slot of both tables is as it was, and at most the occupant of that new slot is dropped, at its last reference |
| `AddrMan.AddrMan.SweepNew` | source/src/addrman.cpp:209-219 | the entry leaves every new bucket it was in and its refcount is zero |
| `AddrMan.AddrMan.Evict` | source/src/addrman.cpp:223-243 | the displaced tried entry goes to the new table with one reference |
| `AddrMan.AddrMan.FindNewBucket` | source/src/addrman.cpp:284-299 | the search always finds a bucket, and one that holds the entry |
| `AddrMan.AddrMan.Good_` | source/src/addrman.cpp:255-319 | unknown, other-port and already tried addresses, a pending collision and the move to the tried table, each with its exact effect; the indexes agree afterwards |
| `AddrMan.AddrMan.InsertNew` | source/src/addrman.cpp:370-390 | the reference is added, or the position stays as it was and a brand-new entry is dropped again |
| `AddrMan.AddrMan.Refresh` | source/src/addrman.cpp:334-360 | the update of a known entry, and that Add_ goes on exactly if there is news, the entry is new with fewer than eight references, and the draw is one in 2^refcount |
| `AddrTables.RefreshedMeans` | source/src/addrman.cpp:337-345 | announcements move the time of an entry forward only, a known one only by more than an hour, or a day for a peer that is not online, and news beyond that is taken over; services add up |
| `AddrMan.AddrMan.Add_` | source/src/addrman.cpp:321-392 | the exact effect of an announcement from a source, given the random draw: nothing for unroutable addresses, an update and perhaps one more reference for a known entry, and for an unknown IP a new entry that takes its slot or is dropped again; the indexes agree afterwards |
| `AddrTables.InsertedDrops` | source/src/addrman.cpp:370-391 | a place is taken only from a terrible entry or from one that has another place, and an empty place is always taken |
| `AddrTables.AddForgetsTerrible` | source/src/addrman.cpp:370-391 | an announcement makes the manager forget terrible entries only |
| `AddrMan.AddrMan.EnsureFiled` | source/src/addrman.cpp:394-421 | before the call of Good_ the known entry has its time and services updated, or a new one is created and takes its slot from at most one other; no tried entry is lost |
| `AddrTables.WelcomedMeans` | source/src/addrman.cpp:405-410 | a handshake leaves the later of both times and the services of both |
| `AddrMan.AddrMan.FirstRef` | source/src/addrman.cpp:412-418 | the entry gets its own slot with refcount one, and at most the former occupant is dropped |
| `AddrMan.AddrMan.AddAndMarkGood_` | source/src/addrman.cpp:394-424 | nothing for an unroutable address; otherwise the effect above followed by the effect of Good_ without the test, so that an address whose IP is not filed under another port is one tried entry, connected to at this time and without failures; no tried entry is lost |
| `AddrMan.AddrMan.AddReplacingSameIP` | source/src/addrman.h:631-648 | an entry of the IP under another port goes, with its pending mark, and all others stay; then the exact effect of Add_; the result says exactly whether a routable address was not held before |
| `AddrMan.AddrMan.AddAndMarkGoodReplacingSameIP` | source/src/addrman.h:688-704 | for a routable address, from any consistent state: one entry for the IP, with the given port, in its own tried slot, refcount zero; tried entries of other IPs are all still there; at most the pending mark of another port goes |
| `AddrMan.AddrMan.Attempt_` | source/src/addrman.cpp:426-446 | only the attempt fields of the entry with that very address change |
| `AddrTables.CountedOnce` | source/src/addrman.cpp:440-445 | between two successes anywhere at most one attempt on an entry counts as a failure |
| `AddrMan.AddrMan.GetAddr_` | source/src/addrman.cpp:573-596 | addresses of different endpoints that are not terrible, with their times and services, within the limit, and all of them when the limit is not reached; the indexes agree afterwards |
| `AddrMan.AddrMan.Connected_` | source/src/addrman.cpp:598-616 | only the time of the entry with that very address changes, and only after twenty minutes |
| `AddrMan.AddrMan.SetServices_` | source/src/addrman.cpp:618-634 | only the services of the entry with that very address change |
| `AddrMan.AddrMan.ResolveOne` | source/src/addrman.cpp:641-690 | the decision is to drop, to keep or to replace by the tests on the slot and its occupant; a replaced entry is marked good and is tried afterwards, the other decisions change nothing; occupied tried slots stay occupied |
| `AddrMan.AddrMan.ResolveCollisions_` | source/src/addrman.cpp:636-693 | every pending entry is settled once, one after the other; a tried entry with a success in the last four hours stays tried, and one that loses its place was last tried over a minute ago and has lost it to a pending one for the same slot, with a try within four hours or the other waiting for over forty minutes; what is given up has an occupant with a success in the last four hours, what stays pending one that may not be displaced yet; each still pending has an occupied tried slot |
| `AddrTables.SettlingIsFair` | source/src/addrman.cpp:653-686 | settling one entry changes the times of that one only and takes a tried slot only from an entry that may give it, for good |
| `AddrTables.StaysExplained` | source/src/addrman.cpp:636-688 | why a pending entry is not in the tried table stays true while others are settled |
| `AddrTables.ProtectedMore` | source/src/addrman.cpp:636-688 | whom the resolutions so far displaced, together with the next one |
| `AddrMan.AddrMan.SelectTriedCollision_` | source/src/addrman.cpp:695-720 | offers the occupant of the slot of a pending entry, or a blank entry when the slot is empty; the indexes agree afterwards if and only if the slot was occupied |
| `AddrMan.SelectionCanFail` | source/src/addrman.cpp:695-720 | two routable addresses of different IPs with the same tried slot suffice for a run after which a selection leaves indexes that do not agree |
| `AddrMan.ResolveThenSelect` | source/src/addrman.cpp:636-720 | right after resolving, a selection keeps the indexes in agreement |
| `Coins.RunMatches` | source/src/coins.cpp:49-284 | any run of lookups, additions, spends, flushes, uncachings, new and discarded layers on a stack of any depth answers as plain maps do, coins moved out by spends included, except that spending what is not there may report success with a spent coin; it never throws and leaves every entry in a legal flag state |
| `Coins.StepMatches` | source/src/coins.cpp:49-284 | the same for one operation, with the views at every depth equal to the plain maps |
| `Coins.AllLegal` | source/src/coins.h:122-138 | every entry of a legal stack is in one of the five documented flag states |
| `Coins.FetchIsRight` | source/src/coins.cpp:49-64 | a lookup answers as the plain map, keeps the stack legal and is invisible at every depth |
| `Coins.GetIsRight` | source/src/coins.cpp:66-73 | GetCoin of a cache answers with the unspent coin that can be seen, and with nothing otherwise; the database may answer with a spent one |
| `Coins.AddExactly` | source/src/coins.cpp:75-107 | adding goes through and leaves a legal layer if and only if an overwrite was announced or no unspent coin can be seen |
| `Coins.AddIsRight` | source/src/coins.cpp:75-107 | then the view gains exactly that coin, or nothing when its script begins with OP_RETURN or has over 10000 bytes |
| `Coins.AddCoinsIsRight` | source/src/coins.cpp:109-121 | AddCoins adds exactly the spendable outputs and does not throw, with the check, for a coinbase, or when none of the outputs can be seen |
| `Coins.SpentIsRight` | source/src/coins.cpp:123-137 | spending takes exactly that coin out of the view, whether the entry is erased or kept |
| `Coins.SpendExactly` | source/src/coins.cpp:123-137 | a coin that can be seen is moved out; where none can be seen the result is false if and only if there is no spent entry in the top layer nor, below a single layer without one, in the database |
| `Coins.SpendTwice` | source/src/coins.cpp:123-137 | a second spend of a coin fails if and only if the top layer held it FRESH and no spent entry is below |
| `Coins.SpendReportsTwice` | source/src/coins.cpp:123-137 | the smallest case: one empty layer over a database with the coin, where the second spend reports success again |
| `Coins.BatchIsRight` | source/src/coins.cpp:208-266 | writing a legal layer down never hits the FRESH error and makes the parent look as the child did |
| `Coins.BatchNext` | source/src/coins.cpp:208-266 | entries can be written one after the other, in any order, with the same result and the same error |
| `Coins.DbBatchIsRight` | source/src/txdb.cpp:121-145 | the same for the database at the bottom |
| `Coins.FlushIsRight` | source/src/coins.cpp:268-273 | Flush leaves the flushed view unchanged for every outpoint |
| `Coins.FlushAt` | source/src/coins.cpp:268-273 | a flush in the middle of a stack changes only the view of its target, to the flushed one |
| `Coins.UncacheIsInvisible` | source/src/coins.cpp:275-284 | Uncache erases the entry exactly if it has no flag, leaves all others, and changes nothing that can be seen |
| `Coins.ReplaceBelow` | source/src/coins.cpp:29-39 | what a layer shows depends only on what the layers below show |
| `Coins.CCoinsViewCache.constructor` | source/src/coins.cpp:43-43 | an empty cache with exact usage accounting |
| `Coins.CCoinsViewCache.FetchCoin` | source/src/coins.cpp:49-64 | fills in the answer from below, FRESH when spent, and keeps cachedCoinsUsage exact |
| `Coins.CCoinsViewCache.AddCoinTo` | source/src/coins.cpp:75-107 | the new layer, or the throw; the usage total is exact unless it threw |
| `Coins.CCoinsViewCache.SpendCoin` | source/src/coins.cpp:123-137 | the new layer, the coin moved out and the result |
| `Coins.CCoinsViewCache.Uncache` | source/src/coins.cpp:275-284 | erases exactly a clean entry and keeps all others, with exact usage |
| `Coins.CCoinsViewCache.WriteOne` | source/src/coins.cpp:211-262 | one entry of a batch: merged, or the throw with no entry changed |
| `Coins.CCoinsViewCache.BatchWrite` | source/src/coins.cpp:208-266 | throws exactly when some entry is misapplied, and otherwise merges all of them |
| `Miner.BlockAssembler.constructor` | source/src/miner.cpp:59-104 | an empty template with all counters reset, the given include flags, and the weight limit clamped to between 4000 and MAX_BLOCK_WEIGHT - 4000 |
| `Miner.BlockAssembler.AddPackageTxs` | source/src/miner.cpp:365-506 | the loop ends, and throughout the block is closed under ancestors, listed after its ancestors, exactly counted and within its weight, sigops and MWEB limits; only final transactions of allowed kinds are added; every candidate that is looked at pays the minimum fee for the totals on record, and the tests decide what happens to it; both counters are those of the selected packages; out of candidates, every listed transaction is in the block, or what is missing for it does not fit, or something missing for it is not allowed or was refused by the MWEB; otherwise it stopped at an underpaying package, or, if and only if over 1000 candidates in a row found no room, nearly full |
| `Miner.PaidFor` | source/src/miner.cpp:435-438 | every transaction that went in was part of a selected package whose totals on record pay the minimum fee |
| `Miner.NothingPays` | source/src/miner.cpp:435-438 | if no totals pay the minimum fee, nothing goes in |
| `Miner.BlockAssembler.TryPackage` | source/src/miner.cpp:441-504 | the outcome says exactly which test failed; a failed test changes nothing but drops an entry of the modified index; a selected package goes in whole, or up to a refused MWEB transaction, and the rest fails; the block stays consistent and the index right |
| `Miner.BlockAssembler.Consider` | source/src/miner.cpp:441-504 | after its turn a candidate is in the block or blocked, and everything failed stays out for a reason |
| `Miner.TestedIsBlocked` | source/src/miner.cpp:441-463 | a package that fails a test is blocked: what is missing for it does not fit, or a missing member is not allowed or refused |
| `Miner.BlockedThrough` | source/src/miner.cpp:329-336 | what keeps a missing ancestor out keeps its descendants out |
| `Miner.BlockedLater` | source/src/miner.cpp:329-336 | what is blocked stays blocked as the block grows |
| `Miner.KeptOut` | source/src/miner.cpp:441-463 | without refusals a listed transaction is outside because part of its missing package is not allowed, or because the sigops or MWEB weight of that package do not fit, or because its scaled size does not, with the slack between scaled size and weight of its ancestors in the block |
| `Miner.FailsAgain` | source/src/miner.cpp:329-336 | a failed entry that is evaluated again with its cached totals, however the block grew since, fails the tests again whether or not it is marked failed, unless something of its package was refused by the MWEB |
| `Miner.BlockAssembler.AddTested` | source/src/miner.cpp:465-504 | a tested package goes in whole or up to a refused MWEB transaction, and the index is brought up to date when all of it went in |
| `Miner.BlockAssembler.AddSorted` | source/src/miner.cpp:470-493 | exactly a prefix goes in; the rest is marked failed and all of it leaves the index |
| `Miner.BlockAssembler.AddToBlock` | source/src/miner.cpp:249-299 | the block, its lists of transactions, fees and sigops and all its counters gain exactly that transaction, or nothing changes; a transaction without MWEB part is never refused |
| `Miner.UpdatePackagesForAdded` | source/src/miner.cpp:301-327 | afterwards the recorded totals of everything outside the block cover its missing ancestors; exactly the figures of its added ancestors were taken off each entry; each is the cached total less some ancestors in the block, with one modified fee and otherwise plain fees taken off; and the count is that of touched entries |
| `Miner.TookTallied` | source/src/miner.cpp:470-504 | unless it failed, an entry outside the block has the totals of exactly its missing package; a package that goes in whole keeps this, and after a refusal what went in before it is not counted |
| `Miner.UpdateDescendants` | source/src/miner.h:116-129 | each descendant of an added transaction has its figures taken off, from the index or from the mempool entry, and is counted once |
| `Miner.SortForBlock` | source/src/miner.cpp:344-353 | a sorted list of exactly the package |
| `Miner.PackageInOrder` | source/src/miner.h:87-94 | sorting by ancestor count puts every missing ancestor first |
| `Miner.PrefixIs` | source/src/miner.cpp:470-493 | what goes in of a sorted package with a refusal is exactly what comes before the refused transaction |
| `Miner.InOrderIsClosed` | source/src/miner.cpp:203-214 | ancestors first means closed under ancestors |
| `Miner.PrefixKeeps` | source/src/miner.cpp:216-226 | a package that passes the test fits the limits however far its addition gets |
| `Miner.ModifiedAfterAdding` | source/src/miner.cpp:301-327 | growing the block keeps the index covering |
| `Miner.Known` | source/src/miner.cpp:338-342 | the totals that are looked at, from either index, cover the package they stand for |
| `Miner.Progress` | source/src/miner.cpp:386-505 | each turn either grows the block or uses up a candidate |
| `Cuckoo.Cache.constructor` | source/src/cuckoocache.h:339-352 | an empty cache with at least two slots; epoch size and counter are 45 percent of the size, wrapped to 32 bits and at least one |
| `Cuckoo.Scale` | source/src/cuckoocache.h:244-251 | the fraction of 2^32 that the hash is, of the size, rounded down |
| `Cuckoo.Hashes` | source/src/cuckoocache.h:242-252 | position k is the k-th hash scaled to the table |
| `Cuckoo.Cache.Insert` | source/src/cuckoocache.h:392-440 | the epoch check keeps the live set, or exactly the current epoch when a scan found it full; then the live set gains the element, less exactly the element still in hand if all those in hand, up to the depth limit, found eight live slots; a live element sits at the first of its eight slots that holds it, and nowhere else; current-epoch entries plus the counter stay within epoch_size + max(1, epoch_size/16) |
| `Cuckoo.Cache.InsertChecked` | source/src/cuckoocache.h:396-440 | the same for an insertion after the epoch check; an element that is in the table already is made live and nothing is lost |
| `Cuckoo.Cache.Chain` | source/src/cuckoocache.h:405-439 | the chain ends with a free slot among the first depth_limit elements in hand, or with the element in hand after depth_limit exchanges |
| `Cuckoo.NothingLost` | source/src/cuckoocache.h:387-391 | what was live and the element are live afterwards if and only if the element is in the table or one of the elements in hand before the limit finds a free slot |
| `Cuckoo.NextLocIs` | source/src/cuckoocache.h:430-430 | the first exchange goes to the second position, every other to the position after the last |
| `Cuckoo.Cache.Exchange` | source/src/cuckoocache.h:431-436 | exchanging the element in hand keeps the live set and it together the same, and the one that comes out is not live any more |
| `Cuckoo.RevivedFirst` | source/src/cuckoocache.h:400-404 | so does reviving the first slot that holds the element |
| `Cuckoo.PutFirst` | source/src/cuckoocache.h:408-416 | so does a write to the first free slot |
| `Cuckoo.ExchangedFirst` | source/src/cuckoocache.h:405-436 | an exchange in which all eight slots are live leaves every live element at the first slot that holds it |
| `Cuckoo.Cache.Store` | source/src/cuckoocache.h:408-416 | writing over a dead slot adds exactly the element |
| `Cuckoo.Cache.Contains` | source/src/cuckoocache.h:469-479 | reports every live element; erasing sets exactly the flag of the first of the eight slots that holds the element, which takes exactly that element out of the live set |
| `Cuckoo.Erased` | source/src/cuckoocache.h:469-479 | unsetting the first hit takes exactly that element out of the live set |
| `Cuckoo.Cache.AllowErase` | source/src/cuckoocache.h:265-268 | sets exactly one collection flag |
| `Cuckoo.Cache.EpochCheck` | source/src/cuckoocache.h:288-320 | a full scan ages exactly the previous epoch, there is room for an insertion afterwards, and the number of insertions until the next scan is exact |
| `Cuckoo.Cache.Age` | source/src/cuckoocache.h:304-311 | live afterwards is live before and of the current epoch |
| `Cuckoo.Cache.CountRecent` | source/src/cuckoocache.h:293-299 | the scan counts live entries of the current epoch |
| `Cuckoo.Exchanged` | source/src/cuckoocache.h:431-436 | an exchange moves one element and one epoch flag |
| `Cuckoo.Slots.PutSet` | source/src/cuckoocache.h:408-416 | the effect of one write on the live set |
| `BitFlags.FlagsAreSeparate` | source/src/cuckoocache.h:84-114 | setting and clearing a packed flag touches that flag and no other |
| `Merkle.ReadIsSound` | source/src/merkleblock.cpp:149-180 | a proof that gives the root of a list of ids reports at each index the id in that place, each index once and in order, under an injective hash |
| `Merkle.AcceptedIsUsedUp` | source/src/merkleblock.cpp:151-179 | a proof that gives a root is for 1 to 16666 transactions, has no more hashes than transactions or bits, uses all its hashes and all its bits but the padding |
| `Merkle.ReadBack` | source/src/merkleblock.cpp:133-180 | building, packing, unpacking and extracting gives the root and exactly the matches if and only if no expanded node has two equal children, and is refused otherwise |
| `Merkle.ReadIsComplete` | source/src/merkleblock.cpp:133-180 | in particular for distinct ids under an injective hash |
| `Merkle.SubtreeSound` | source/src/merkleblock.cpp:95-131 | a subtree that comes out with the true hash reports only true leaves, whatever the proof |
| `Merkle.SubtreeComplete` | source/src/merkleblock.cpp:77-131 | extraction consumes exactly what building appended for a subtree |
| `Merkle.SubtreeInOrder` | source/src/merkleblock.cpp:95-131 | matches come out in ascending order within the subtree |
| `Merkle.FirstLeaf` | source/src/merkleblock.cpp:57-75 | equal subtree hashes start with the same leaf |
| `Merkle.PairOfLeaves` | source/src/merkleblock.cpp:57-74 | left before right, and the last one of an odd level twice |
| `Merkle.DistinctHasNoTwins` | source/src/merkleblock.cpp:119-123 | distinct leaves leave no node with two equal children |
| `Merkle.ProofBounds` | source/src/merkleblock.h:38-44 | both documented bounds on the number of hashes |
| `Merkle.HashPerLeaf` | source/src/merkleblock.h:38-44 | at most one hash for each leaf |
| `Merkle.HashPerMatch` | source/src/merkleblock.h:38-44 | at most one hash, plus one for each match and level |
| `Merkle.BitsPerHash` | source/src/merkleblock.cpp:77-93 | a proof has twice as many flag bits as hashes, less one, and one more for each expanded node with a single child |
| `Merkle.OnlyOnSpine` | source/src/merkleblock.h:70-72 | only the last node of a level can have a single child |
| `Merkle.FlagBits` | source/src/merkleblock.h:51-51 | the documented bound of 2 * N - 1 flag bits holds if and only if no level of odd width below the top has a match under the parent of its last node |
| `Merkle.TooManyFlagBits` | source/src/merkleblock.h:51-51 | three ids with only the last matched break that bound |
| `Merkle.WidthMeans` | source/src/merkleblock.h:70-72 | the width of a level counts the nodes that have a leaf |
| `Merkle.WidthHalves` | source/src/merkleblock.h:70-72 | widths halve from level to level, rounding up |
| `Merkle.CalcHeight` | source/src/merkleblock.cpp:137-141 | the lowest level that is one wide |
| `Merkle.ComputeMerkleRoot` | source/src/consensus/merkle.cpp:45-63 | the level-by-level root is the recursive tree hash, and the mutation flag says exactly whether some node has two equal children |
| `Merkle.RootOfTwo` | source/src/consensus/merkle.cpp:45-62 | the root of two ids is the hash of the first and the second |
| `Merkle.LevelUp` | source/src/consensus/merkle.cpp:53-57 | one round turns a level into the next |
| `Merkle.BitsToBytes` | source/src/merkleblock.cpp:12-19 | bit p is flag p of the bytes and the rest is unset |
| `Merkle.BytesToBits` | source/src/merkleblock.cpp:21-28 | flag p of the bytes is bit p |
| `Merkle.PackedComesBack` | source/src/merkleblock.cpp:12-28 | packing and unpacking gives the bits back, with fewer than eight unset ones after them |
| `Merkle.AnyMatch` | source/src/merkleblock.cpp:78-81 | whether some leaf of the subtree is matched |
| `Merkle.CPartialMerkleTree.constructor` | source/src/merkleblock.cpp:133-145 | holds the proof for the ids and matches |
| `Merkle.CPartialMerkleTree.Empty` | source/src/merkleblock.cpp:147-147 | an empty tree is bad |
| `Merkle.CPartialMerkleTree.Serialize` | source/src/merkleblock.h:88-96 | the bits go out packed |
| `Merkle.CPartialMerkleTree.Unserialize` | source/src/merkleblock.h:88-96 | the bits come in unpacked and the tree is not bad |
| `Merkle.CPartialMerkleTree.TraverseAndBuild` | source/src/merkleblock.cpp:77-93 | appends the proof of the subtree |
| `Merkle.CPartialMerkleTree.TraverseAndExtract` | source/src/merkleblock.cpp:95-131 | reads the proof of a subtree, advancing both counters, appending the matches and setting the bad flag exactly as the parser says |
| `Merkle.CPartialMerkleTree.ExtractMatches` | source/src/merkleblock.cpp:149-180 | root, matches and bad flag are those of the whole parse, with all its refusals |
| `Bloom.LastKeysArePresent` | source/src/bloom.cpp:213-276 | after any run of insertions since a reset, every key of the current generation and of the two generations before it is reported present |
| `Bloom.LastTwoGenerations` | source/src/bloom.cpp:213-276 | in particular each of the last 2 * nEntriesPerGeneration keys |
| `Bloom.ContainsExactly` | source/src/bloom.cpp:213-276 | a key is reported present if and only if each of its places belongs to a key of the current generation or of the two generations before it |
| `Bloom.InsertKeeps` | source/src/bloom.cpp:213-242 | an insertion keeps every place labelled by the last of the three latest generations with a key there, and unlabelled otherwise |
| `Bloom.RollKeeps` | source/src/bloom.cpp:215-231 | starting a generation wipes exactly the labels of the generation that goes |
| `Bloom.MarkKeeps` | source/src/bloom.cpp:233-241 | marking labels exactly the places of the key |
| `Bloom.StoredLabel` | source/src/bloom.cpp:233-241 | storing a label in the two bit planes changes that label and no other |
| `Bloom.KeptLabel` | source/src/bloom.cpp:222-230 | the wipe mask clears exactly the places of the generation |
| `Bloom.FastModScales` | source/src/bloom.cpp:209-211 | FastMod is the hash scaled to the table, and its 64-bit product does not overflow |
| `Bloom.CRollingBloomFilter.constructor` | source/src/bloom.cpp:173-199 | a new filter holds nothing and has half the elements per generation, rounded up |
| `Bloom.CRollingBloomFilter.Reset` | source/src/bloom.cpp:270-276 | an empty filter with a new tweak |
| `Bloom.CRollingBloomFilter.WipeGeneration` | source/src/bloom.cpp:222-230 | the array loop is the wipe of the specification |
| `Bloom.CRollingBloomFilter.MarkKey` | source/src/bloom.cpp:233-241 | the hash-function loop is the marking of the specification |
| `Bloom.CRollingBloomFilter.Insert` | source/src/bloom.cpp:213-242 | the key is logged, and all recent keys of the log are reported present |
| `Bloom.CRollingBloomFilter.Has` | source/src/bloom.cpp:250-262 | present if and only if every place of the key carries a label |
| `Arith.BaseUint.AddAssign` | source/src/arith_uint256.h:132-142 | the sum modulo 2^(32 * WIDTH), also when both are the same object |
| `Arith.BaseUint.Complemented` | source/src/arith_uint256.h:66-72 | the largest number less this one |
| `Arith.BaseUint.Negated` | source/src/arith_uint256.h:74-81 | the negative modulo 2^(32 * WIDTH) |
| `Arith.BaseUint.SubtractAssign` | source/src/arith_uint256.h:144-148 | the difference modulo 2^(32 * WIDTH) |
| `Arith.BaseUint.Increase` | source/src/arith_uint256.h:170-177 | one more, modulo 2^(32 * WIDTH) |
| `Arith.BaseUint.Decrease` | source/src/arith_uint256.h:187-194 | one less, or all ones from zero |
| `Arith.BaseUint.AssignWord` | source/src/arith_uint256.h:85-92 | the 64-bit number |
| `Arith.BaseUint.MultiplyBy` | source/src/arith_uint256.cpp:55-64 | the product with a 32-bit number modulo 2^(32 * WIDTH) |
| `Arith.BaseUint.MultiplyAssign` | source/src/arith_uint256.cpp:67-80 | the product modulo 2^(32 * WIDTH), also when both are the same object |
| `Arith.Column` | source/src/arith_uint256.cpp:72-76 | a column of a product never overflows 64 bits |
| `Arith.BaseUint.ShiftLeftAssign` | source/src/arith_uint256.cpp:21-35 | the product with a power of two modulo 2^(32 * WIDTH), for every shift |
| `Arith.BaseUint.ShiftRightAssign` | source/src/arith_uint256.cpp:38-52 | the floor of the quotient by a power of two, for every shift |
| `Arith.BaseUint.CompareTo` | source/src/arith_uint256.cpp:109-118 | the order of the numbers |
| `Arith.BaseUint.Bits` | source/src/arith_uint256.cpp:171-183 | the length of the number in bits |
| `Arith.BaseUint.DivideAssign` | source/src/arith_uint256.cpp:83-106 | the floor of the quotient, and an error exactly for a zero divisor |
| `Arith.BaseUint.DivideStep` | source/src/arith_uint256.cpp:96-103 | one round of the shift-and-subtract loop keeps quotient times divisor plus remainder |
| `Arith.BaseUint.SetCompact` | source/src/arith_uint256.cpp:203-221 | the number a compact form stands for, modulo 2^256; negative and overflow flags say exactly that |
| `Arith.BaseUint.GetCompact` | source/src/arith_uint256.cpp:223-244 | the compact form of the number; neither assert of the code fires |
| `Arith.CompactFits` | source/src/arith_uint256.cpp:216-219 | the three overflow tests say exactly that more than 256 bits are needed |
| `Arith.CompactVectors` | source/src/test/arith_uint256_tests.cpp:499-521 | four of the compact forms there have the numbers and signs given |
| `Arith.CompactIsUnique` | source/src/arith_uint256.cpp:223-244 | a number has one compact form |
| `Arith.CompactTruncates` | source/src/arith_uint256.cpp:203-244 | expanding the compact form of a number rounds it down by less than one unit |
| `Arith.CompactComesBack` | source/src/arith_uint256.cpp:203-244 | a normalised compact form comes back from its own expansion |
| `Arith.CompactIsNotAllOnes` | source/src/chain.cpp:131-134 | no compact target is 2^256 - 1, so adding one does not wrap |
| `Arith.GetBlockProof` | source/src/chain.cpp:122-135 | floor of 2^256 / (target + 1), and zero exactly for a negative, zero or overflowing target |
| `Arith.WorkIsFloor` | source/src/chain.cpp:131-134 | the quotient used there is the ordinary one |
| `Limbs.SumValue` | source/src/arith_uint256.h:132-142 | limb-by-limb addition is addition modulo the width |
| `Limbs.RowsValue` | source/src/arith_uint256.cpp:67-80 | the rows of the long multiplication add up to the product modulo the width |
| `Limbs.LeftIsProduct` | source/src/arith_uint256.cpp:21-35 | shifting limbs left multiplies modulo the width |
| `Limbs.RightIsQuotient` | source/src/arith_uint256.cpp:38-52 | shifting limbs right divides |
| `Limbs.StepsCancel` | source/src/arith_uint256.h:170-194 | increment and decrement undo each other |
| `Limbs.HighestDecides` | source/src/arith_uint256.cpp:109-118 | the highest different limb decides a comparison |
| `Limbs.BitLength` | source/src/arith_uint256.cpp:171-183 | the bit length is decided by the highest non-zero limb |
| `Chain.BlockIndex.Genesis` | source/src/chain.cpp:116-120 | a block without parent is linked |
| `Chain.BlockIndex.Child` | source/src/chain.cpp:116-120 | a child of a linked block is linked, its skip entry being the ancestor at the skip height |
| `Chain.BlockIndex.GetAncestor` | source/src/chain.cpp:84-109 | the skip list finds what the walk over parents finds, and nothing for a height out of range |
| `Chain.InvertLowestOne` | source/src/chain.cpp:71-71 | smaller than its argument unless that is zero |
| `Chain.LowestOneGoes` | source/src/chain.cpp:71-71 | exactly the lowest one bit is unset |
| `Chain.GetSkipHeight` | source/src/chain.cpp:74-82 | a skip goes strictly down |
| `Chain.EvenSkip` | source/src/chain.cpp:74-82 | an even height skips what its lowest one bit is worth |
| `Chain.OddSkip` | source/src/chain.cpp:74-82 | any other odd height skips what the two lowest one bits of its predecessor are worth |
| `Chain.PowerSkip` | source/src/chain.cpp:74-82 | a height just above a power of two skips to 1 |
| `Chain.OddPart` | source/src/chain.cpp:70-71 | every positive height is an odd multiple of a power of two |
| `Chain.AncestorTwice` | source/src/chain.cpp:84-109 | the ancestor of an ancestor is the ancestor |
| `Chain.CChain.SetTip` | source/src/chain.cpp:11-21 | exactly the ancestor chain of the new tip, although the loop stops where it meets the old chain |
| `Chain.SharedBelow` | source/src/chain.cpp:16-20 | chains that share a block share everything below it |
| `Chain.CChain.ContainsMeans` | source/src/chain.h:420-422 | contained if and only if the tip or an ancestor of it |
| `Chain.CChain.NextIsChild` | source/src/chain.h:425-430 | the successor is the child in the chain, and only the tip has none |
| `Chain.CChain.FindFork` | source/src/chain.cpp:51-60 | the highest ancestor of the block that is in the chain, if there is one |
| `Chain.CChain.Back` | source/src/chain.cpp:37-43 | the direct look-up and the skip list give the same ancestor |
| `Chain.CChain.GetLocator` | source/src/chain.cpp:23-49 | ancestors from the start strictly down to genesis at exactly the heights of the source: the first eleven one apart, then twice as far each time; at most 12 plus the binary logarithm of the height |
| `Chain.FewEntries` | source/src/chain.cpp:23-49 | the number of entries that the doubling steps allow |
| `Chain.LastCommonAncestor` | source/src/chain.cpp:156-171 | the highest block that is an ancestor of both |
| `Base58.EncodeBase58` | source/src/base58.cpp:87-125 | the base-58 numeral of the bytes after a 1 for each leading zero byte; the carry assert never fires |
| `Base58.DecodeBase58` | source/src/base58.cpp:38-133 | the bytes of the text between spaces, with every refusal: NUL, foreign character, inner space, too long; the carry assert never fires |
| `Base58.DecodeInvertsEncode` | source/src/base58.cpp:38-125 | for every byte string within the limit |
| `Base58.EncodeInvertsDecode` | source/src/base58.cpp:38-125 | for every accepted text without spaces |
| `Base58.SpacesIgnored` | source/src/base58.cpp:40-77 | spaces before and after a text do not change what it decodes to |
| `Base58.EncodeBufferSuffices` | source/src/base58.cpp:96-97 | n bytes fit n * 138 / 100 + 1 digits, for every n |
| `Base58.DecodeBufferSuffices` | source/src/base58.cpp:54-55 | n digits fit n * 733 / 1000 + 1 bytes, for every n |
| `Base58.MultiplyAdd` | source/src/base58.cpp:100-112 | the carry loop, which stops early, multiplies the whole number and adds; nothing is carried out |
| `Base58.CarryLoop` | source/src/base58.cpp:105-110 | every digit of the result, and the carry it ends with |
| `Base58.EncodeNumber` | source/src/base58.cpp:96-113 | the buffer holds the number of the bytes |
| `Base58.DecodeText` | source/src/base58.cpp:58-75 | the number of the text, or a refusal exactly for a foreign character or a result that is too long |
| `Base58.SkipOnes` | source/src/base58.cpp:48-52 | counts leading ones, refusing exactly when there are too many |
| `Base58.SymbolsAndDigits` | source/src/base58.cpp:17-36 | the two tables are inverse to each other |
| `Base58.Alphabet` | source/src/base58.cpp:17-18 | the symbols ascend, and are the letters and digits without 0, I, O and l |
| `Radix.DigitsUnique` | source/src/base58.cpp:87-125 | digits without a leading zero are determined by their value |
| `Radix.ScaleValue` | source/src/base58.cpp:100-112 | digit-by-digit scaling with its carry out is exact |
| `Bech32.PolyMod` | source/src/bech32.cpp:42-99 | on five-bit symbols the loop is the run of the linear step function |
| `Bech32.StepReduces` | source/src/bech32.cpp:72-103 | a step multiplies by x, adds the symbol and takes off the generator times the leading coefficient |
| `Bech32.RunIsRemainder` | source/src/bech32.cpp:43-105 | the checksum is the remainder of the input, with a one in front, modulo the generator polynomial over the field with 32 elements: a quotient is given |
| `Bech32.StepLinear` | source/src/bech32.cpp:79-97 | a step is linear in state and input together |
| `Bech32.RunLinear` | source/src/bech32.cpp:42-99 | the checksum of a sum is the sum of the checksums |
| `Bech32.StepInjective` | source/src/bech32.cpp:79-97 | a step without input loses no difference |
| `Bech32.BurstDetected` | source/src/bech32.cpp:42-99 | inputs that differ only within six consecutive symbols have different checksums, at every length |
| `Bech32.RunGroups` | source/src/bech32.cpp:141-145 | from zero, the six symbols of a number run to that number |
| `Bech32.ClosingCloses` | source/src/bech32.cpp:136-147 | every created checksum verifies under its own encoding |
| `Bech32.ClosingIsUnique` | source/src/bech32.cpp:123-133 | the last six symbols are determined by the others |
| `Bech32.VerifiedIs` | source/src/bech32.cpp:123-133 | accepted under an encoding if and only if the checksum is its constant |
| `Bech32.Expand` | source/src/bech32.cpp:108-120 | high bits, a zero, low bits |
| `Bech32.ExpandHRP` | source/src/bech32.cpp:108-120 | the middle symbol is zero, and each character is 32 times its first symbol and its second, which determines the expansion |
| `Bech32.VerifyChecksum` | source/src/bech32.cpp:123-133 | the encoding whose constant the checksum is, if any |
| `Bech32.CreateChecksum` | source/src/bech32.cpp:136-147 | the closing symbols, with which the values verify |
| `Bech32.CharsetInverse` | source/src/bech32.cpp:19-32 | a symbol comes back from its character, which is printable, not upper case and not the separator |
| `Bech32.CharsetRevInverse` | source/src/bech32.cpp:19-32 | a character of the set comes back in lower case |
| `Bech32.Encode` | source/src/bech32.cpp:152-165 | the part, the separator and the characters of values and checksum |
| `Bech32Vectors.AlphabetVector` | source/src/test/bech32_tests.cpp:19-19 | a string of BIP 173 with every character of the set in order |
| `Bech32Vectors.ShortVector` | source/src/test/bech32_tests.cpp:37-37 | a Bech32m string of BIP 350, which fixes its constant |
| `Bech32.ScanCase` | source/src/bech32.cpp:169-176 | accepts exactly printable strings that are not in both cases |
| `Bech32.ReadSymbols` | source/src/bech32.cpp:181-191 | the symbols of the text, or nothing when a character is not in the set |
| `Bech32.Decode` | source/src/bech32.cpp:168-198 | encoding, lower-case part and payload, with every refusal |
| `Bech32.ReceivedIs` | source/src/bech32.cpp:195-198 | received as a payload if and only if the last six symbols are its checksum |
| `Bech32.DecodeInvertsEncode` | source/src/bech32.cpp:152-198 | for every legal lower-case part and every payload within the length limit, or any length with ext_length |
| `Bech32.EncodeInvertsDecode` | source/src/bech32.cpp:152-198 | re-encoding what was decoded gives the string in lower case |
| `Bech32.AcceptedShape` | source/src/bech32.cpp:168-180 | an accepted string has 8 to 90 characters or more where allowed, is printable and in one case, with a part before the last separator and six symbols or more after it |
| `Bech32.CaseDoesNotMatter` | source/src/bech32.cpp:168-198 | a string in upper case decodes to what it decodes to in lower case |
| `Bech32.ChangedCharacters` | source/src/bech32.cpp:168-198 | with up to six neighbouring characters after the separator changed, other than in case and none to the separator character, a string is not accepted under its encoding, at every length |

## Left out

- CheckQueue: the wrap-around of the unsigned nTodo and of the thread counters, and interruption of threads by exceptions, because they need more than 2^31 checks or leave the protocol.
- Serialization of the address manager, Select_, GetChance and asmap decoding: stream input, floating point and code that is not part of this model.
- AddrTables.CheckPasses: error code -16, a null key, because keys are arbitrary here; Check_ is stated by its conditions and not as loops.
- AddrMan.AddrMan.Good_: one clock value is given per call, where the code may read the clock more than once; the nested bucket arrays are maps from slots.
- AddrMan.RunAll: a selection at any other point is not part of the runs, because it can break the indexes; `AddrMan.AddrMan.SelectTriedCollision_` says when.
- The MWEB coin view, MWEB mining and the HogEx transaction; only whether an MWEB transaction is accepted is kept.
- GetBestBlock and SetBestBlock of the coin views, MWEB outputs in HaveCoin and Uncache, and partial database batches.
- Coins.CCoinsViewCache.AddCoinTo: the usage total after a throw is not stated to be exact, because the code lowers it before it throws.
- Miner.BlockAssembler.AddPackageTxs: which package has the best fee rate is left open, since the claims hold for every order of candidates.
- CreateNewBlock around the selection: coinbase, commitments, header fields and validity test.
- Cuckoo.Cache.constructor: the depth limit is a parameter, because it comes from a floating-point logarithm.
- Merkle tree levels beyond 32-bit shifts, that is, lists of 2^31 ids and more.
- Bloom.CRollingBloomFilter.constructor: the number of hash functions and of words are parameters, because they come from floating-point formulas; the hash is an arbitrary function and its 64-bit words are sets of bits.
- CBloomFilter, and the filter overloads on hashes and outpoints: easier members of the same kind.
- Bitwise operators, hexadecimal and floating-point conversions of base_uint.
- Chain.CChain.GetLocator: the doubling of the step width as a 32-bit int, which would need heights above 2^30.
- FindEarliestAtLeast, GetBlockProofEquivalentTime and block file bookkeeping.
- Base58Check, address types and key encoding: a hash and a table around Base58.
- Bech32.ChangedCharacters: a character changed to 1 moves the separator, after which another part and payload may be accepted.
- Compact blocks, block filters, amount compression and network permissions: they rest on code outside this model or are easier.
- Networking, RPC, wallet, GUI, storage, logging and start-up: input and output.
- Cryptographic hashes and signatures.
