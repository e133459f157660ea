# A Dafny model of Zion's transaction pool, chain indices, event feed, gas books and codec

Zion is a Go chain node derived from go-ethereum. This project models the parts of it whose
correctness rests on bookkeeping that several operations must keep in step, and proves what
they keep, for all inputs and all runs.

* **Transaction pool** (`TxPool.dfy`, `PoolSpec.dfy`, `PoolLaws.dfy`, `PoolLedger.dfy`, `ReorgGaps.dfy`,
  `PoolFairness.dfy`, `TxList.dfy`, `PricedList.dfy`, `NonceMap.dfy`, `Heap.dfy`, `SetSum.dfy`). The lookup is the disjoint union
  of the pending and queued lists; the price heap covers the remote part of it; per account the
  pending nonces are an interval that ends where the queue begins; truncation is max-min fair.
  `ReorgScheduler.dfy` is the event loop that merges requests into runs, `PoolEvents.dfy` what a
  run announces, and `PoolReset.dfy` the walk that finds what to reinject after a reorganisation.
* **Canonical-chain indices** (`Ancestry.dfy`, `HeaderChain.dfy`, `BlockChain.dfy`,
  `ChainIndexer.dfy`, `HashLookup.dfy`). The number table, the transaction lookup, the section
  heads and the block-hash cache are compared with walking parent links.
* **Event feed** (`Feed.dfy`). Every step the locks and channels make atomic is a method; the
  log of subscriptions, returns and deliveries is the specification.
* **Gas** (`Gas.dfy`). One message, and a block of them, with 64-bit bounds; the EVM is a
  parameter with a stated contract.
* **Zero-copy codec** (`ZeroCopy.dfy`, `ZeroCopyBuffers.dfy`). A growing buffer and an offset
  reader that undo each other.

Code that updates fields is a class whose methods are proved against value-level functions and
predicates; the lemmas are about those, and say in nonces, prices, balances, heights and bytes what
each of them means. A map iteration in Go is an arbitrary order here, a coin
toss or a clock is a parameter, and a panic is a result that is shown not to occur where the
program relies on that. The database is a set of maps, and a batch is applied at once.

Where the code does not do what its comments suggest, the model follows the code:

* `writeHeaders` leaves a wrong table when a batch of known headers wins a tie. `WriteHeaders`
  says exactly when the table is right; `KnownTieBreaksTable` is an input where it is not.
* `reorg` followed by `writeHeadBlock` leaves stale canonical entries when the new head is lower
  than the old one and its parent is canonical. `WriteKnownBlock` says exactly which entries stay;
  `LowerTieBreaksTable` shows that the fork choice does adopt such a block. Up to the head the table
  is right all the same, over whole runs (`Import`).
* A head that does not descend from the old one can break an account's nonce interval in two ways.
  When the state nonce falls, the pending nonces can have a gap (`ReorgGap`, `ReorgGapExample`). When
  reinjection evicts a pending transaction below the state nonce, nothing is left pending and the
  virtual nonce stays too low (`ReorgLag`, `EvictedBelowExample`). `SettledExactly` says for every head
  change which accounts come out right: exactly those that neither happens to.
* When the pool is full, room is made before the price bump is tested, so a refused replacement
  can still have evicted others. `Add` says exactly when; `FullPool` is such a pool.
* An event queued for a run is lost when a later one of the same account and nonce is queued before
  the same launch. `EventLost` says exactly when, and `EventReplaced` is such a case.
* The pool-full test adds a number of transactions to a number of slots; `Full` does the same.
* Refunds are capped at a fifth under all rules, not only from the London fork on.

## Model

| member | source | states |
|---|---|---|
| TxList.TxSortedMap.Put | core/tx_list.go:72-79 | the map gains the transaction and the heap of nonces stays duplicate-free and complete |
| TxList.TxSortedMap.Forward | core/tx_list.go:83-102 | removes exactly the nonces below the threshold, returns them sorted, and a cache cut at the front is still the sorted contents |
| TxList.TxSortedMap.Filter | core/tx_list.go:104-111 | removes and returns exactly the transactions that satisfy the filter, and the rebuilt index matches |
| TxList.TxSortedMap.FilterItems | core/tx_list.go:124-138 | the same without rebuilding the index; the cache is dropped only if something was removed |
| TxList.TxSortedMap.Cap | core/tx_list.go:142-163 | keeps exactly the lowest nonces, returns the others highest first, and a cache cut at the back is still the sorted contents |
| TxList.TxSortedMap.Remove | core/tx_list.go:167-184 | removes one nonce from map and heap and says whether it was there |
| TxList.TxSortedMap.Ready | core/tx_list.go:193-208 | takes out, sorted, the maximal consecutive run from the lowest nonce if that nonce is not above start, and nothing otherwise |
| TxList.TxSortedMap.Flatten | core/tx_list.go:215-236 | the contents sorted by nonce, from the cache or freshly built |
| TxList.TxSortedMap.LastElement | core/tx_list.go:240-243 | the transaction of the highest nonce |
| NonceMap.SortsUnique | core/tx_list.go:215-236 | the sorted list of a nonce map is unique, so the cache is determined by the contents |
| NonceMap.LowestUnique | core/tx_list.go:142-163 | the k lowest nonces are the only part of that size below everything left out |
| TxList.TxList.Add | core/tx_list.go:278-303 | inserted exactly if the nonce is free, or the price is above the old one and 100 times it is above (100 + bump) times the old one less 100; contents and replaced transaction follow |
| TxList.OutbidsMeans | core/tx_list.go:281-292 | the price threshold, which is rounded down, in hundredths |
| TxList.TxList.Forward | core/tx_list.go:308-310 | keeps exactly the nonces from the threshold on, and the cost and gas caps still bound every member |
| TxList.TxList.Filter | core/tx_list.go:321-349 | the result is that of a full scan although the caps may cut it short: kept is exactly what is within both limits and, in strict mode, has nothing beyond them below it |
| TxList.TxList.Cap | core/tx_list.go:354-356 | keeps exactly the lowest nonces and returns the others highest first |
| TxList.TxList.Remove | core/tx_list.go:361-372 | removes the nonce and, in strict mode, everything above it, which is returned |
| TxList.TxList.Ready | core/tx_list.go:381-383 | takes out the maximal consecutive run and keeps the caps valid |
| TxList.FilterPartition | core/tx_list.go:321-349 | kept, invalidated and unpayable transactions are disjoint and together the whole list |
| TxList.StrictKeepsContiguous | core/tx_list.go:308-372 | Forward, Filter, Remove and Cap in strict mode take a contiguous nonce range to a contiguous one |
| PricedList.TxLookup.Add | core/tx_pool.go:1660-1671 | the transaction joins its part; `slots` stays the sum of all slot counts for a new one and is wrong for one already there |
| PricedList.TxLookup.Remove | core/tx_pool.go:1675-1692 | removes exactly the transaction from whichever part has it; an unknown one changes nothing |
| PricedList.TxLookup.RemoteToLocals | core/tx_pool.go:1696-1709 | moves exactly the remote transactions of the given accounts and counts them |
| PricedList.PriceKeyOrder | core/tx_list.go:415-425 | the heap key orders by price ascending and then nonce descending |
| Transactions.NumSlots | core/tx_pool.go:1712-1714 | the fewest slots of 32 KiB that hold the transaction |
| PricedList.TxPricedList.Put | core/tx_list.go:459-464 | a remote transaction becomes one more heap entry, a local one does not |
| PricedList.TxPricedList.Removed | core/tx_list.go:469-478 | the heap is rebuilt exactly if more than a quarter of it is stale, and otherwise only the count changes; surplus entries stay within `stales`, at least three quarters of the heap are live afterwards, and no entry is new |
| PricedList.TxPricedList.Reheap | core/tx_list.go:554-563 | the heap is exactly the remote transactions, each once, and nothing is stale |
| PricedList.TxPricedList.Underpriced | core/tx_list.go:505-525 | equals a scan of all live remotes: there is one and none is cheaper than the transaction |
| PricedList.TxPricedList.Discard | core/tx_list.go:530-551 | pops the cheapest live remotes in order, the shortest prefix that covers the slots; succeeds exactly if forced or coverable, and a failure drops nothing |
| PricedList.DropsAreDistinct | core/tx_list.go:530-551 | without duplicate entries the drops are distinct, gone from the heap, and free the slots they count |
| PricedList.RootIsCheapest | core/tx_list.go:505-525 | the root of a covering heap bounds every live remote |
| PoolSpec.AccountChange | core/tx_pool.go:670-753 | changing one account's lists and the lookup alike keeps the lookup the disjoint union of all lists |
| PoolSpec.RemoveConsistent | core/tx_pool.go:903-949 | removing a transaction takes out only it: later pending ones return to the queue and the union law holds |
| PoolSpec.RemoveIntervals | core/tx_pool.go:903-949 | removal with the lowered virtual nonce keeps every account's pending interval and the queue above it |
| PoolSpec.PromotionPartition | core/tx_pool.go:1212-1273 | promoted and still queued transactions are disjoint parts of the old queue |
| PoolSpec.PromotionConsistent | core/tx_pool.go:1212-1273 | promotion of an account, with its drops taken from the lookup, keeps the union law |
| PoolSpec.PromoteInterval | core/tx_pool.go:1212-1273 | promotion without a head change extends the pending interval exactly to the new virtual nonce |
| PoolSpec.DemotionPartition | core/tx_pool.go:1410-1462 | kept and returned transactions are disjoint parts of the old pending list |
| PoolSpec.DemotionConsistent | core/tx_pool.go:1410-1462 | demotion of an account, with its drops taken from the lookup, keeps the union law |
| PoolLaws.PromotionObeys | core/tx_pool.go:1212-1273 | in nonces, gas, cost and balance: pending gains exactly the unbroken run of usable queued nonces from the lowest if that is not above the virtual nonce; a local account loses no usable transaction; a remote queue is cut to the cap, from the top |
| PoolLaws.DemotionObeys | core/tx_pool.go:1410-1462 | likewise: pending keeps exactly the usable prefix from the state nonce, and the other usable transactions return to the queue |
| PoolLedger.EvictionTakes | core/tx_pool.go:604-621 | evicting takes exactly the given transactions out of the lists |
| PoolSpec.ResetInterval | core/tx_pool.go:1054-1100 | when the state nonce did not fall, promoting and demoting leave an interval from the state nonce with the whole queue above it |
| ReorgGaps.ReorgGap | core/tx_pool.go:1054-1100 | when the state nonce falls below the pending interval, the account ends settled (pending an interval from the state nonce, queue above, virtual nonce right when empty) if and only if the state nonce is not queued and payable, the first old transaction is unpayable, or the payable queue closes the whole gap |
| ReorgGaps.ReorgLag | core/tx_pool.go:1054-1100 | when it does not, promotion from any virtual nonce up to the state nonce settles the account if and only if that is the state nonce, or the transaction at the state nonce is pending and payable |
| ReorgGaps.SettlesExactly | core/tx_pool.go:1054-1100 | both together: the exact condition for every interval, queue and virtual nonce up to the state nonce |
| ReorgGaps.RemovalCuts | core/tx_pool.go:903-949 | removing a transaction leaves an account's pending nonces and virtual nonce as they were, or cuts both below a pending nonce |
| ReorgGaps.CutInterval | core/tx_pool.go:1184-1207 | a cut interval is an interval; a virtual nonce that was the state nonce still is, or everything pending is below it |
| ReorgGaps.SettledExactly | core/tx_pool.go:1054-1100 | from intervals under the old head, through a reset with reinjection to any new head, exactly the accounts are settled whose virtual nonce is still the state nonce and whose gap, if any, closes |
| ReorgGaps.DescendingCloses | core/tx_pool.go:1054-1100 | when no state nonce falls and nothing is reinjected, those are all accounts |
| ReorgGaps.ReorgGapExample | core/tx_pool.go:1121-1207 | nonces 5 and 6 pending and only 3 reinjected leaves 3, 5 and 6 pending |
| ReorgGaps.EvictedBelowExample | core/tx_pool.go:1184-1207 | nonces 5, 6 and 7 pending, the state nonce risen to 7 and 5 evicted leaves nothing pending, 7 queued and the virtual nonce at 5 |
| PoolFairness.LevelMonotone | core/tx_pool.go:1278-1360 | a higher cap never leaves fewer transactions |
| PoolFairness.WaterLevelIsLargest | core/tx_pool.go:1278-1360 | the water level is the largest cap that fits the limit, hence unique |
| PoolFairness.RoundLowersLevel | core/tx_pool.go:1310-1360 | capping exactly the accounts at the level moves the whole pool one level down |
| PoolFairness.RoundStep | core/tx_pool.go:1278-1360 | a round keeps the offender bookkeeping and lowers all offenders together |
| PoolFairness.WaterLevelLimits | core/tx_pool.go:1278-1360 | at the water level the total fits, or every remote account is down to its guarantee |
| PoolFairness.SortByHeartbeat | core/tx_pool.go:1372-1379 | every remote account with a queue, once, by ascending heartbeat |
| PoolFairness.LocalsRemain | core/tx_pool.go:1363-1405 | local transactions bound the remainder from below and are all of it when every remote account is drained |
| PoolFairness.TruncationIntervals | core/tx_pool.go:1085-1098 | truncation and the final nonce update turn settled accounts into intervals again |
| TxPool.TxPool.constructor | core/tx_pool.go:263-316 | an empty pool satisfies both invariants |
| TxPool.TxPool.EnqueueTx | core/tx_pool.go:670-705 | the exact new queue, lookup, remote part and heartbeats; the transaction replaced is forgotten; the missing-from-lookup case is reported |
| TxPool.TxPool.Requeue | core/tx_pool.go:903-949 | returning transactions to the queue never replaces one and never finds one missing from the lookup |
| TxPool.TxPool.RemoveTx | core/tx_pool.go:903-949 | the exact lists, heartbeats, lookup, remote part and virtual nonce after a removal; an unknown transaction changes nothing |
| TxPool.TxPool.CutPending | core/tx_pool.go:919-936 | the pending list is cut below the nonce, the later transactions are queued, and the virtual nonce is at most the nonce |
| TxPool.RemovalKeeps | core/tx_pool.go:903-949 | a removal keeps intervals and payable lists, and cuts at most one account |
| TxPool.PlaceKeeps | core/tx_pool.go:622-665 | so do replacing a pending transaction and queueing one, which cut none |
| TxPool.TxPool.Admit | core/tx_pool.go:596-621 | underpriced and overflow are answered exactly for their causes and change nothing but stale heap entries; otherwise exactly the evicted, the worst remotes, leave the lookup and the remote part, and without duplicate heap entries the pool with a remote newcomer is within its slots |
| TxPool.TxPool.FreeSlots | core/tx_pool.go:604-621 | succeeds exactly for a local newcomer or when the live heap entries cover the slots; evicts the worst remotes, no more than needed in that order; a failure changes nothing |
| TxPool.EvictsCheapest | core/tx_pool.go:604-621 | what is popped from a covering heap is the worst part of the live remotes, although the heap has stale entries |
| TxPool.EvictsEnough | core/tx_pool.go:604-621 | for a remote newcomer the popped entries cover the slots, and without duplicate entries the evicted transactions do |
| TxPool.CoverableSingle | core/tx_list.go:530-551 | without duplicate entries the slots are coverable exactly if the remotes together have them |
| TxPool.LiveSame | core/tx_list.go:505-525 | popping stale entries changes neither what is coverable nor whether live entries are single |
| TxPool.TxPool.Add | core/tx_pool.go:526-665 | the answer is exactly that of its causes in order, in prices, nonces, gas, cost and counts; the lookup and the remote part change by exactly the newcomer, what stood at its slot, what was evicted and, for the remote part, a newly local account; the lists and heartbeats are the old ones without the evicted and with the newcomer over the pending transaction of its nonce or else queued; every remote keeps a heap entry and no entry is new but the newcomer's; a refusal for the price bump leaves the lookup unchanged if and only if the pool was not full or had no remotes; intervals and payable lists are kept and pending parts at most cut |
| TxPool.PricesMean | core/tx_pool.go:622-665 | an accepted replacement is above the old price and above (100 + bump) hundredths of it less one; one refused for its price is not |
| TxPool.RefusalsMean | core/tx_pool.go:526-572 | each refusal of validation has exactly its cause, the earlier checks being passed |
| TxPool.RoomMeans | core/tx_pool.go:596-621 | the pool is full by transactions plus the newcomer's slots; underpriced is answered exactly for a remote newcomer no dearer than any remote; evicted are remotes, cheapest first and at equal price the highest nonce first, no more than the slots in excess take, and enough for them unless no remote is left |
| TxPool.RefusalIsInert | core/tx_pool.go:578-612 | a submission refused as known, invalid, underpriced or for want of room changes the answer to no later one |
| TxPool.StaysSingle | core/tx_list.go:459-464 | live heap entries stay single unless the newcomer has a stale entry left |
| TxPool.Judged | core/tx_pool.go:622-665 | after the eviction the newcomer is refused exactly if the transaction still standing at its slot is not outbid, and the lookup, the remote part and the heap entries follow |
| TxPool.RefusedAfterEviction | core/tx_pool.go:596-630 | a full pool of two in which a replacement at the same price is refused after the other account's transaction was evicted |
| TxPool.FullPool | core/tx_pool.go:578-630 | that pool is reached by three submissions |
| TxPool.TxPool.AddTxsLocked | core/tx_pool.go:853-864 | each submission is answered by the pool the one before it left, whose lists and heartbeats are stated too; exactly the accounts with an accepted, non-replacing transaction are dirty; intervals and payable lists are kept and pending parts at most cut |
| TxPool.TxPool.PromoteTx | core/tx_pool.go:723-755 | the exact pending list, virtual nonce, heartbeat and lookup, for both outcomes |
| TxPool.TxPool.PromoteRun | core/tx_pool.go:1240-1249 | promoting a ready run never takes the discard branch: all of it becomes pending, in order |
| TxPool.TxPool.PromoteExecutables | core/tx_pool.go:1212-1273 | every given account is promoted as specified and no other changes; every given remote queue is within the account cap and no usable transaction of a given local account is lost; an account left without a queue has no heartbeat, one that gained pending transactions has one now, and all others keep theirs |
| TxPool.TxPool.DemoteUnexecutables | core/tx_pool.go:1410-1462 | every pending account is demoted as specified; what is pending starts at the state nonce and is within gas limit and balance; only accounts that get a queue and had no heartbeat get one; the union law holds |
| TxPool.TxPool.TruncatePending | core/tx_pool.go:1278-1360 | over the limit, remote accounts end at their lowest nonces up to the water level and locals are untouched; otherwise nothing changes |
| TxPool.TxPool.TruncateQueue | core/tx_pool.go:1363-1405 | over the limit, exactly the larger of the limit and the local transactions remain, latest heartbeats are drained first and at most one account is trimmed, from its top; exactly the drained accounts lose their heartbeat |
| TxPool.TruncationMeans | core/tx_pool.go:1278-1405 | locals keep everything, a shortened account keeps its guarantee, no remote account keeps more pending transactions than a shortened one, and of two remote queues the one with the later heartbeat is cut first |
| TxPool.CutDone | core/tx_pool.go:1363-1405 | a drain that stops at the limit or at the last remote account leaves exactly that many transactions |
| TxPool.TxPool.UpdateNonces | core/tx_pool.go:1094-1098 | every pending account's virtual nonce is one past its last transaction and no other changes |
| TxPool.TxPool.Reset | core/tx_pool.go:1184-1207 | the new state replaces the old, the noncer is emptied, the reinjected batch is answered one by one under the new state, and each account's pending nonces and virtual nonce are the old ones and the state nonce, or both cut below an evicted nonce; a failed load changes nothing |
| TxPool.TxPool.RunReorg | core/tx_pool.go:1054-1100 | starts from the pool as it was, or as reset and reinjected; promotes exactly the dirty or queued accounts, with remote queues within the account cap and no usable local transaction lost, demotes all pending ones after a reset, and cuts each side only over its limit and no local account; says the heartbeats after every stage; keeps the union law always, leaves every pending transaction payable, and settles exactly the accounts that close under any new head; if all are settled the intervals hold, in particular when the head descends or its state does not load |
| TxPool.RunSettles | core/tx_pool.go:1054-1100 | the intervals through promotion and demotion under the same state |
| TxPool.HeadSettles | core/tx_pool.go:1054-1100 | and under a new one: exactly the accounts that close are settled, which are all if the head descends |
| PoolSpec.PromotionPays | core/tx_pool.go:1212-1273 | promotion adds payable transactions only |
| PoolSpec.DemotionPays | core/tx_pool.go:1410-1462 | demotion leaves payable transactions only |
| PoolSpec.DemotionIdle | core/tx_pool.go:1410-1462 | under an unchanged state, demotion moves nothing out of payable intervals |
| TxPool.TxPool.Evict | core/tx_pool.go:363-379 | exactly the queues of remote accounts whose heartbeat is older than the lifetime go, with their heartbeats, and both invariants hold |
| TxPool.TxPool.Run | core/tx_pool.go:320-390 | over every sequence of batches, reorganisation runs and evictions each state is the one its event makes of the state before, the union law holds and everything pending is payable, and the intervals hold as long as every new head descends or does not load |
| PoolReset.ReinjectedTxs | core/tx_pool.go:1121-1183 | exactly the transactions of the old chain that the new chain lacks come back, none when the new head descends, the heads are too far apart or a higher old head is missing; aborts exactly for a missing old head that is not higher |
| PoolReset.BranchDifference | core/tx_pool.go:1151-1180 | being in one chain and not in the other is decided by the two branches above the fork |
| PoolReset.RequestReset | core/tx_pool.go:1121-1207 | the reset takes effect exactly if the new state loads and the walk was not given up, with or without an old head; it offers again exactly what the old chain loses; so a head that descends in the chain descends for the pool unless its state lowers a nonce |
| ReorgScheduler.EveryRun | core/tx_pool.go:984-1051 | the scheduler's invariant holds in every reachable state |
| ReorgScheduler.AtMostOneActive | core/tx_pool.go:984-1051 | no two runs are ever active together |
| ReorgScheduler.ClosedMeansServed | core/tx_pool.go:953-971 | short of a shutdown, a requester's channel is closed only by a finished run that contained the request |
| ReorgScheduler.WaitingRuns | core/tx_pool.go:995-1008 | in every reachable state without a current run, a request that no run contains is in one after the next turn, whatever event it handles |
| ReorgScheduler.EveryRequestRuns | core/tx_pool.go:984-1051 | from every reachable state short of a shutdown, once the active run has finished and been seen, one more turn puts every request made so far into a run |
| ReorgScheduler.RunIsAskedFor | core/tx_pool.go:1020-1028 | a run promotes no account but those asked for by the requests it answers |
| ReorgScheduler.ShutdownPossible | core/tx_pool.go:1042-1050 | a shutdown is possible once the run that is wanted or active has finished |
| ReorgScheduler.StoppedAnswersAll | core/tx_pool.go:1042-1050 | after a shutdown nothing is active and every requester's channel is closed |
| ReorgScheduler.ResetsTelescope | core/tx_pool.go:984-1051 | the runs' resets chain from the first head to the latest and every head change is in exactly one |
| ReorgScheduler.RunHoldsLatest | core/tx_pool.go:1030-1038 | a run holds, at each account and nonce, exactly the last event queued since the previous launch |
| ReorgScheduler.EventHasRun | core/tx_pool.go:993-1008 | in every reachable state each queued event waits for the next run or was taken over by exactly one |
| ReorgScheduler.EventLost | core/tx_pool.go:1030-1038 | an event is missing from its run if and only if the last one of its account and nonce before that launch is another; so one queued once is lost exactly when a later one of its slot was queued before the same launch |
| ReorgScheduler.EventReplaced | core/tx_pool.go:1030-1038 | of two events of one account and nonce before a launch only the second reaches the run |
| ReorgScheduler.Scheduler.OnEvent | core/tx_pool.go:1030-1038 | the event joins its account's sorted map as the abstract step says |
| PoolEvents.Announce | core/tx_pool.go:1075-1119 | announced are exactly the last promoted transaction of each slot and the events that no promotion displaced and that are not stale after a reset; each account's ascend by nonce, none twice |
| PoolEvents.AnnouncedRun | core/tx_pool.go:1075-1119 | for the transactions a pool run promoted, that is all of them, and each event not stale after the reset whose slot the run did not fill |
| ReorgScheduler.Scheduler.OnReset | core/tx_pool.go:1010-1018 | the loop's fields move as the abstract step says and the answer is the next run's channel |
| ReorgScheduler.Scheduler.OnPromote | core/tx_pool.go:1020-1028 | the same for a promotion request |
| ReorgScheduler.Scheduler.Serve | core/tx_pool.go:984-1051 | under any sequence of events the loop's state is that of the abstract steps and keeps the invariant |
| ReorgScheduler.ServedIsReachable | core/tx_pool.go:984-1051 | that state is reached by the events that were possible when they came, so every law of reachable states holds of it |
| Ancestry.AncestorTransitive | core/headerchain.go:421-453 | an ancestor of an ancestor is the ancestor at that height |
| Ancestry.AncestorStable | core/headerchain.go:149-297 | storing more headers changes no walk and no total difficulty |
| HeaderChain.HeaderChain.StoreBatch | core/headerchain.go:149-203 | the unknown headers of the batch are stored with difficulty sums from genesis; known ones are a prefix or everything |
| HeaderChain.HeaderChain.MarkCanonical | core/headerchain.go:227-269 | the table below the batch is its parent walk, the batch is entered if any of it is new, and nothing is above |
| HeaderChain.HeaderChain.WriteHeaders | core/headerchain.go:149-297 | the head goes to the larger difficulty, at equal difficulty to the lower header, and at equal height by the coin; so it stays the heaviest stored header; the table is the parent walk from it if and only if the batch lost, had a new header, or was canonical already |
| HeaderChain.StaysHeaviest | core/headerchain.go:209-224 | the fork choice keeps the head one that no stored header exceeds in difficulty, nor equals at a lower height |
| HeaderChain.BatchHeaviest | core/headerchain.go:149-224 | comparing only the last header of a batch is enough for that |
| HeaderChain.MarkedIsRight | core/headerchain.go:227-269 | the marked table is the new head's walk exactly if some header was new or the batch was canonical already |
| HeaderChain.KnownTieBreaksTable | core/headerchain.go:209-269 | two children of genesis of equal difficulty are an input that leaves a wrong table |
| HeaderChain.HeaderChain.SetHead | core/headerchain.go:559-636 | terminates; the head is the old head's ancestor at the first height not above the target and what was forced at the heights walked to, no header is above it on any fork, and the table is right |
| HeaderChain.ForcedTo | core/headerchain.go:581-590 | the lowest of the target and the heights forced in a range |
| HeaderChain.HeaderChain.Run | core/headerchain.go:149-636 | over every sequence of batches and rewinds, the stored headers and the head are those each event makes of the ones before, and the table is the parent walk with every difficulty the sum, until the first batch that wins without a new header and off the head's chain, where the table is not and the run stops |
| HeaderChain.HeaderChain.GetAncestor | core/headerchain.go:421-453 | an answer is the plain walk's; no answer means the walk budget ended before any canonical block; the budget falls by exactly the non-canonical blocks walked over before a canonical one or the ancestor |
| BlockChain.BlockChain.WriteHeadBlock | core/blockchain.go:775-802 | enters one block into the table and the lookup and makes it the head |
| BlockChain.BlockChain.FindFork | core/blockchain.go:2147-2191 | the two branches, head first, down to the lowest common ancestor |
| BlockChain.TxDifference | core/types/transaction.go:363-378 | exactly the transactions of the first list missing from the second, with multiplicity |
| BlockChain.BlockChain.WriteBranch | core/blockchain.go:2208-2219 | table and lookup with the new branch below its head written over them |
| BlockChain.BlockChain.Reorg | core/blockchain.go:2092-2237 | the table is right, with nothing above, for the last block written or for the old head, even from one with stale entries; the lookup is right for the new head up to that head's own transactions |
| BlockChain.LookupCleaned | core/blockchain.go:2220-2225 | deleting what only the old branch had leaves exactly the new chain's entries below its head |
| BlockChain.CutIsRight | core/blockchain.go:2226-2237 | deleting upwards until the first missing entry leaves exactly the head's ancestry, even from a table with stale entries |
| BlockChain.ForkByParent | core/blockchain.go:2208-2219 | the new branch has two or more blocks exactly if the new head's parent is not on the old head's chain |
| BlockChain.BlockChain.WriteKnownBlock | core/blockchain.go:1427-1438 | the lookup always equals what one recomputes from the new head, and so does the table up to that head; the highest entry left is determined, and from a right table none is left above if and only if the block is not a lower sibling of the canonical chain |
| BlockChain.HeadWritten | core/blockchain.go:1427-1438 | what is in the table after a reorganisation and the head's own entry |
| BlockChain.SiblingTop | core/blockchain.go:1554-1568 | a lower sibling can be read off the table, and from a right table it is the one case that leaves entries above |
| BlockChain.BlockChain.WriteBlockWithState | core/blockchain.go:1451-1568 | refused exactly without its parent; otherwise stored; it becomes the head by the larger difficulty, at equal difficulty by the lower height, and at equal height unless the head is to be kept, if it is itself to be kept or by the coin; the head stays the heaviest stored block, and the indices are as for a known block |
| BlockChain.LowerTieBreaksTable | core/blockchain.go:1536-1568 | a lower block of equal difficulty next to the canonical chain wins the fork choice and is a lower sibling |
| BlockChain.BlockChain.Import | core/blockchain.go:1451-1568 | over blocks of one tree in any order, the stored blocks, the head and the highest table entry are those the arrivals determine, the head is the heaviest stored block, the lookup is always right, the table is the head's ancestry up to the head, and it has nothing above if and only if its highest entry is at the head |
| BlockChain.FirstStale | core/blockchain.go:1451-1568 | a right table stays right until the first arrival adopted as a lower sibling, and with that one it is not |
| BlockChain.TopStable | core/blockchain.go:2092-2237 | what is left over depends only on the ancestries of the old and the new head |
| ChainIndexer.ChainIndexer.SetValidSections | core/chain_indexer.go:479-491 | sets any count, up or down, and forgets exactly the heads from there up to the old count |
| ChainIndexer.ChainIndexer.NewHead | core/chain_indexer.go:243-300 | a reorganisation cuts known and stored sections to those before it; a new head only raises the known ones, by the confirmed sections |
| ChainIndexer.ChainIndexer.VerifyLastHead | core/chain_indexer.go:422-429 | sections dropped have a non-canonical head, and on a parent-linked table every section kept has the canonical one, though only the last is looked at |
| ChainIndexer.ChainIndexer.BeginUpdate | core/chain_indexer.go:318-338 | the next section and the head below it, after dropping reorged ones |
| ChainIndexer.ChainIndexer.ProcessSection | core/chain_indexer.go:388-417 | succeeds exactly if every height was accepted on top of the one before, whatever table each read saw; a failed reset drops all sections |
| ChainIndexer.ChainIndexer.FinishUpdate | core/chain_indexer.go:350-369 | the section is recorded exactly if nothing below it was cut meanwhile, and the heads stay hash-linked |
| ChainIndexer.ChainIndexer.GetSections | core/chain_indexer.go:434-440 | the count, the last height and its canonical hash; with none, the height wraps around |
| ChainIndexer.ChainIndexer.Run | core/chain_indexer.go:304-382 | over any interleaving of notifications, reorganisations and the phases of an update each state is the one its event makes of the state before, and the heads stay hash-linked |
| ChainIndexer.CanonicalBelow | core/chain_indexer.go:422-429 | one canonical section head makes all lower ones canonical |
| ChainIndexer.TableFromChain | core/chain_indexer.go:393-407 | a right header-chain table is parent-linked in the indexer's sense |
| HashLookup.HashFn.Get | core/evm.go:74-105 | for a number below the reference, the answer of the plain walk whatever was asked before |
| HashLookup.WalkIsAncestor | core/evm.go:74-105 | with complete ancestry the walk is the ancestor at that height |
| Feed.Find | event/feed.go:213-220 | the first index of the channel, or -1 exactly if it is absent |
| Feed.DeactivateKeeps | event/feed.go:228-232 | swapping a served case to the end loses and duplicates nothing |
| Feed.DeleteActive | event/feed.go:223-225 | deleting a case removes exactly it from the active part |
| Feed.Feed.Subscribe | event/feed.go:72-92 | the channel waits in the inbox and counts as live |
| Feed.Feed.Unsubscribe | event/feed.go:103-115 | returns at once exactly if the channel is in the inbox; otherwise it will be found among the send cases |
| Feed.Feed.RemoveUnlocked | event/feed.go:116-124 | without a running Send the channel is always found and exactly one case of it goes |
| Feed.Feed.BeginSend | event/feed.go:128-154 | the Send owes a delivery to every live subscription |
| Feed.Feed.TrySend | event/feed.go:159-165 | a ready case is served and leaves the active part; another is skipped |
| Feed.Feed.EndTry | event/feed.go:166-168 | when no case is active, every drained case was served exactly once or removed first, and the result counts the served ones |
| Feed.Feed.SelectSend | event/feed.go:170-181 | the chosen case is served once |
| Feed.Feed.SelectRemove | event/feed.go:170-178 | the case goes from the list, and from the active part exactly if it was unserved |
| Feed.Feed.DropCase | event/feed.go:170-178 | a deleted case leaves the books of what the Send owes, delivered and removed balanced |
| Feed.Feed.Run | event/feed.go:72-190 | over every interleaving each state is the one its event makes of the state before, the inbox and the cases are the live subscriptions and no delivery goes to a channel all of whose Unsubscribe calls returned |
| Feed.LogStep | event/feed.go:72-190 | how one log entry changes the counts, and that a delivery to a live channel keeps the law |
| Gas.IntrinsicGas | core/state_transition.go:112-150 | fails exactly when the data price overflows 64 bits; otherwise the value is, modulo 2^64, 21000 or 53000, 16 or 68 for each byte that is not zero and 4 for each that is, 2400 for each listed address and 1900 for each storage key |
| Gas.CostInNumbers | core/state_transition.go:112-150 | the price counted byte by byte and key by key |
| Gas.GuardIsOverflow | core/state_transition.go:134-142 | the division guard is an overflow test, both ways |
| Gas.GasPool.AddGas | core/gaspool.go:29-35 | adds, or panics exactly on overflow |
| Gas.GasPool.SubGas | core/gaspool.go:39-45 | subtracts, or fails exactly when there is too little |
| Gas.StateTransition.BuyGas | core/state_transition.go:184-197 | takes the whole limit from the block and its price from the sender, or nothing with the exact reason |
| Gas.StateTransition.PreCheck | core/state_transition.go:199-213 | the first broken early rule is the answer |
| Gas.StateTransition.RefundGas | core/state_transition.go:297-312 | the charge after the capped refund; what is left goes back to sender and pool, which cannot overflow |
| Gas.StateTransition.Settle | core/state_transition.go:286-295 | the state is the outcome with the gas left paid back and the gas used paid to the miner, and the pool gets the rest of the limit |
| Gas.Charged | core/state_transition.go:297-303 | at most a fifth of the spent gas and at most the counter comes back, and one of the two bounds is met |
| Gas.StateTransition.TransitionDb | core/state_transition.go:227-295 | refused exactly for the first rule broken; otherwise the pool loses the gas used, the EVM starts with the whole gas limit paid for and a caller's nonce one higher, and on top of its outcome the sender has the price of the gas left, the miner that of the gas used, and everybody else the same |
| Gas.SettledPays | core/state_transition.go:286-288 | who is paid what, account by account |
| Gas.EnteredMeans | core/state_transition.go:184-277 | what the EVM sees, account by account |
| Gas.RefusalMeans | core/state_transition.go:184-262 | each refusal has exactly its cause, the earlier rules being met |
| Gas.SettledConserves | core/state_transition.go:184-312 | paying in advance and settling neither makes nor loses money |
| Gas.ApplyTransaction | core/state_processor.go:92-121 | refused exactly for the first rule broken; otherwise state and pool are the next books, sender and miner are paid as for one message, the refund counter is cleared, and the receipt is what the pool lost |
| Gas.NextBooksConserve | core/state_transition.go:227-312 | one message conserves the total balance and solvency and is charged at least four fifths of its intrinsic gas |
| Gas.BlockConserves | core/state_processor.go:73-90 | so does every sequence of messages that goes through |
| Gas.RefusalIsFinal | core/state_processor.go:73-90 | a refused prefix refuses the block |
| Gas.Process | core/state_processor.go:58-90 | goes through if and only if no message is refused in its turn, and a rejection names the first that is and why; on success state, pool after every message and receipts are those of the books, cumulative gas is the prefix sum and what the pool lost, and money is conserved |
| ZeroCopy.LittleEndianBack | common/zero_copy_sink.go:105-118 | reading the little-endian bytes of a value in range gives the value |
| ZeroCopy.LittleEndianByte | common/zero_copy_sink.go:105-118 | byte i of an encoded integer has weight 256 to the power i |
| ZeroCopy.VarUintFormat | common/zero_copy_sink.go:152-173 | one byte below 0xFD, or 0xFD, 0xFE or 0xFF and the value in two, four or eight bytes |
| ZeroCopy.EncodesAs | common/zero_copy_sink.go:65-150 | every encoding in bytes |
| ZeroCopy.VarUintBack | common/zero_copy_source.go:205-238 | a written variable-length integer is read back, with its length consumed |
| ZeroCopy.ParseBack | common/zero_copy_source.go:59-238 | every kind of value is read back from wherever its encoding lies |
| ZeroCopy.Parse | common/zero_copy_source.go:59-238 | on any bytes the offset only moves forward and never past the end |
| ZeroCopy.RoundTrip | common/zero_copy_source.go:59-238 | from a script's bytes, possibly followed by more, the same reads return the script and stop at its end |
| ZeroCopyBuffers.Sink.Grow | common/zero_copy_sink.go:47-63 | room for n more bytes with the contents kept across reallocation, or ErrTooLarge exactly when twice the capacity plus n exceeds an int |
| ZeroCopyBuffers.Sink.NextBytes | common/zero_copy_sink.go:72-79 | extends the contents, with the capacity and failure of growing; a count that turns negative as an int cuts the buffer back and panics |
| ZeroCopyBuffers.Sink.BackUp | common/zero_copy_sink.go:83-86 | gives back exactly the last bytes |
| ZeroCopyBuffers.Sink.WriteBytes | common/zero_copy_sink.go:65-68 | the contents grow by exactly the bytes, or there is no room and nothing changes |
| ZeroCopyBuffers.Sink.WriteUnsigned | common/zero_copy_sink.go:88-130 | the contents grow by the value, least significant byte first, exactly if there is room |
| ZeroCopyBuffers.Sink.WriteVarUint | common/zero_copy_sink.go:152-173 | reserving nine bytes and giving some back leaves exactly the encoding; fails exactly without room for nine |
| ZeroCopyBuffers.Sink.WriteVarBytes | common/zero_copy_sink.go:132-138 | length and bytes are appended and the size returned is theirs, exactly if there is room for the reserve and then the bytes |
| ZeroCopyBuffers.SafeAddMeans | common/safe_math.go:37-39 | the flag is set exactly on wrap-around and the sum is exact without it |
| ZeroCopyBuffers.Source.NextBytes | common/zero_copy_source.go:59-70 | the next bytes or, with eof, what is left; the offset stays inside |
| ZeroCopyBuffers.Source.Skip | common/zero_copy_source.go:72-82 | moves the offset as reading would |
| ZeroCopyBuffers.Source.NextBool | common/zero_copy_source.go:101-111 | zero and one are booleans; any other byte is consumed and reported as eof |
| ZeroCopyBuffers.Source.NextVarUint | common/zero_copy_source.go:205-238 | agrees with the format on every input and fits 64 bits |
| ZeroCopyBuffers.Source.NextVarBytes | common/zero_copy_source.go:167-174 | agrees with the format on every input, also when the length lies |
| ZeroCopyBuffers.Source.Read | common/zero_copy_source.go:59-238 | each reader's outcome and offset are those of the format, on every input |
| ZeroCopyBuffers.ScriptFits | common/zero_copy_sink.go:47-63 | doubling keeps the capacity within three times the bytes in use, so every script of up to 2^59 bytes fits |
| ZeroCopyBuffers.WriteAndRead | common/zero_copy_sink.go:34-173 | any script is written exactly if it fits, always up to 2^59 bytes, and is then read back in full with no byte left over |

## Left out

- Pool lists: the pool holds each account's list as its plain nonce map. That the list object refines that map is proved in `TxList.dfy`, but sharing of list objects is not modelled.
- Nonces equal to 2^64-1: nonces stop one short of it, so that a successor exists.
- Hash collisions: values with the same hash are the same value, so the lookup is a set of transactions.
- TxPool.TxPool.RunReorg: for heads that do not descend from the old one, which accounts have intervals is stated before truncation, which can also cut a gap away; the state nonces of a head are given, not computed from its chain.
- TxPool.TxPool.Add: signature, format and intrinsic-gas checks are three given answers.
- ReorgScheduler.EveryRequestRuns: that an active run finishes and that the loop is scheduled are assumptions about the runtime, so progress is stated over traces.
- Journalling, metrics, and the feed that carries the announcement; recovering a reinjected transaction from its hash is a parameter of `RequestReset`.
- TxPool.TxPool.EnqueueTx: with `addAll`, a transaction already in the lookup is excluded; `add` tests that before (core/tx_pool.go:579-585), and a second entry would break the slot count.
- `SetGasPrice` and `txPricedList.Cap`: the operator's minimum price, and dropping the remotes below it, are not modelled.
- Missing blocks inside a branch during `reset` and `reorg`: the stored blocks are closed under parents; only a missing old head is modelled.
- HeaderChain.HeaderChain.WriteHeaders: database errors and an abort between headers are not modelled.
- HeaderChain.HeaderChain.Run: stops at the batch that leaves a wrong table; what later batches do to such a table is not modelled, since marking stops at the first entry that matches and need not reach the wrong ones.
- Freezer, caches, block bodies' receipts, logs, and the head-header and fast-block markers.
- Pruned transaction lookups, and chains in which a transaction occurs twice.
- `AddCheckpoint` and child indexers: sections trusted from a checkpoint, and passing notifications on to other indexers, are not modelled.
- ChainIndexer.ChainIndexer.ProcessSection: the reset-failure path clears the sections without the lock in the source; here that step is atomic.
- Feed type checks: all channels have the right element type.
- Gas.StateTransition.TransitionDb: the state after a refusal is not described, since gas may have been bought and the caller rejects the block.
- Gas.Process: block rewards and the DAO fork are not modelled; the EVM is assumed to return at most the gas given, to conserve money and to overdraw nobody.
- Source.BackUp: moving the offset back without a check is the one way to leave the bytes and is not modelled.
- Networking, RPC, consensus engines, the EVM, the state trie and signature recovery.
