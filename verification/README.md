# A model of a Bitcoin-derived node

This project models the parts of the node whose correctness is least visible in any one function,
and proves what they promise.

* **Address manager** (`addrman*.dfy`): the five structures and two counters of the peer table. Every
  operation is a method of a class with the fields of the original; each is proved against a function
  or relation on states, and every run from the empty manager, saving and loading included, keeps the
  whole invariant. The runtime check of the original is modelled as it runs.
* **Check queue** (`checkqueue*.dfy`): the critical sections of the parallel verification queue as methods,
  and the protocol as a transition system with any number of workers and spurious wake-ups.
* **Unspent outputs** (`varint.dfy`, `amount.dfy`, `coins*.dfy`): the sparse record format and its round trip,
  and write-back caches linked over one database, stacked to any depth.
* **Block template** (`ledger*.dfy`, `miner*.dfy`): selection by priority with release of waiting transactions
  over a running cache, built on the cache objects above.
* **Hashes** (`words.dfy`, `keccak*.dfy`, `blake*.dfy`): the lane-complemented and renamed KECCAK rounds, and
  BLAKE's counter, against plain definitions over strings of bits.
* **Checkpoints** (`block_tree.dfy`, `sync_checkpoints.dfy`, `rolling*.dfy`): synchronized checkpoints as a state
  machine over the block tree, and rolling checkpoints as an append-only log against a table.
* **Base58, Merkle trees, compact targets, page locks** (`radix.dfy`, `base58.dfy`, `merkle.dfy`, `compact.dfy`,
  `locked_pages.dfy`).

`common.dfy`, `arithmetic.dfy`, `finite_sets.dfy` and `random.dfy` hold shared definitions.
`dafny verify dfyconfig.toml` checks the whole project.

Objects whose methods change fields are classes; each method's `ensures` gives its new state as a
function of, or a relation to, the old one, and lemmas state what holds of those functions. Random
draws are nondeterministic choices in range. Predicates such as `Inv`, `Valid`, `Holds` and `Synced`
are the invariants the methods keep.

## Where the code differs from what it says

* `SelectTried` is documented to return the oldest of four random entries. It records a position after
  a swap has moved the entry away from it. `AddrManInspect.EvictsOldestIff` is the exact condition, and
  `AddrManInspect.RecentEvicted` is a full bucket that gives up its most recent entry instead.
* `Good_` and `Attempt_` accept any time, but a time of zero or less breaks the manager's own check.
  `AddrManSpec.GoodKeeps` and `AddrManSpec.AttemptKeeps` say exactly when, and
  `AddrManSpec.BadTimes` is a run that fails.
* The constructor of `CCheckQueueControl` reads the queue without its mutex. A worker that is waking up,
  or only just starting, can make its first assertion fail although the queue is unused.
  `CheckQueueProtocol.ControlAsserts` is the exact condition, and `CheckQueueProtocol.LateWorker` a run.
* A negative version or height is written as a variable-length integer of seven bits, so a record
  with one does not come back. `CoinsFormat.UnchangedIff` is the exact condition, and
  `CoinsFormat.NegativeVersionLost` a record.
* `Flush` pushes the block hash of the cache even when it is null, which erases the claim of a base
  that is itself a cache. `CoinsView.FlushBestIff` is the exact condition, and
  `CoinsView.FlushLosesClaim` a stack.
* A restart drops a stored synchronized checkpoint that the block index does not know, and then any
  block may become the next one. `SyncCheckpoints.SurviveIff` is the exact condition, and
  `SyncCheckpoints.LossForks` a tree in which two checkpoints end up on different branches.
* The loader of rolling checkpoints is documented to truncate a partial record at the end of the file;
  it only stops reading there, and the next record is appended behind it.
  `RollingCheckpoints.AppendedReadsIff` is the exact condition for that record to read back, and
  `RollingCheckpoints.TornFile` a file for which another height is locked instead.
* `CBase58Data::SetString` ignores the verdict of the check; with no version bytes it accepts every
  string and leaves the object empty.
* `GetCompact` loses the high bits of an exponent above 255. `Compact.FitsIff` is the exact condition.

## Model

| member | source | states |
|---|---|---|
| AddrMan.Manager.constructor | src/addrman.h:383-391 | a new manager is empty and consistent |
| AddrMan.Manager.Create | src/addrman.cpp:96-106 | the new entry takes the next id and the last slot of the random order; everything else stays |
| AddrMan.Manager.SwapRandom | src/addrman.cpp:108-126 | exchanges two slots of the random order and keeps every entry's back pointer right, also for equal slots |
| AddrMan.Manager.SelectTried | src/addrman.cpp:128-150 | permutes the bucket by its draws, so that the inspected entries come first and one slot holds the first oldest of them; the position returned is the one that entry was drawn from, and it holds that entry exactly when it was drawn from its own slot |
| AddrManInspect.OldestOfInspected | src/addrman.cpp:128-150 | the entry found oldest is the first of least success time among those inspected, and the position kept is its draw |
| AddrManInspect.EvictsOldestIff | src/addrman.cpp:133-149 | the entry given up is the oldest of those inspected exactly when the draw that found it is its slot |
| AddrManInspect.FirstGivenUp | src/addrman.cpp:136-149 | in every full bucket whose second entry is older than its first, third and fourth, the draws 1, 1, 2, 3 find the second oldest and give up the first |
| AddrManInspect.RecentEvicted | src/addrman.cpp:138-146 | a full bucket of 64 that gives up its most recent entry, although its oldest was inspected |
| AddrMan.Manager.ShrinkNew | src/addrman.cpp:152-204 | gives up one entry of a full new bucket: the first terrible one, or the oldest of the four drawn; the new state is that choice with its references dropped |
| AddrMan.Manager.FirstTerrible | src/addrman.cpp:157-175 | finds the first terrible entry in ascending order, and none before it is terrible |
| AddrMan.Manager.OldestDrawn | src/addrman.cpp:178-190 | the entry chosen is one of those drawn and no drawn one is older |
| AddrMan.Manager.Strip | src/addrman.cpp:210-218 | takes an entry out of all new buckets; its reference count ends at zero, so the assertion holds |
| AddrMan.Manager.MakeTried | src/addrman.cpp:206-262 | promotes an entry by appending it or by replacing the one its draws pick; a consistent manager stays consistent |
| AddrMan.Manager.TakeSlot | src/addrman.cpp:233-261 | from a full tried bucket the entry at the position the draws give, inspected or not, goes back to a new bucket, and the promoted entry takes its place |
| AddrMan.Manager.Replace | src/addrman.cpp:236-260 | the entry given up goes to its own new bucket if there is room and to the origin bucket otherwise |
| AddrMan.Manager.Good_ | src/addrman.cpp:264-311 | the state after a successful connection, for every time; consistent afterwards exactly when the address is unknown or the time is positive |
| AddrMan.Manager.FindBucket | src/addrman.cpp:290-305 | the search from a random start always finds a new bucket that holds the entry, so the exit for none is never taken |
| AddrMan.Manager.Add_ | src/addrman.cpp:313-368 | the state after adding an address, in all its branches; keeps the manager consistent |
| AddrMan.Manager.UpdateSeen | src/addrman.cpp:324-331 | makes the change that `AddsToKnown` describes to the entry; other entries stay |
| AddrMan.Manager.Enter | src/addrman.cpp:358-366 | puts a referenced entry into its bucket, first shrinking a full one |
| AddrMan.Manager.Attempt_ | src/addrman.cpp:370-387 | the state after a connection attempt, for every time; consistent afterwards exactly when the address is unknown or the time is not negative |
| AddrMan.Manager.Connected_ | src/addrman.cpp:518-536 | the state after seeing a connected node; keeps the manager consistent |
| AddrMan.Manager.GetAddr_ | src/addrman.cpp:493-516 | answers with exactly as many addresses as due, all different, routable and known, and only reorders the random order |
| AddrMan.Manager.Check_ | src/addrman.cpp:434-490 | the check as it runs: reports no error exactly when all the structures agree, and never does for a consistent manager |
| AddrMan.Manager.Save | src/addrman.h:273-318 | writes the renumbered form of a consistent manager |
| AddrMan.Manager.SaveEntries | src/addrman.h:284-307 | writes the new entries and then the tried ones in id order and numbers the new ones |
| AddrMan.Manager.SaveBuckets | src/addrman.h:308-318 | writes each new bucket as a count and the numbers of its entries |
| AddrMan.Manager.Load | src/addrman.h:319-378 | loading what a consistent manager saved gives a consistent manager equal to it up to the renaming of ids |
| AddrMan.Manager.LoadNew | src/addrman.h:328-341 | the new entries come back under the ids 0, 1, ... with no reference yet |
| AddrMan.Manager.LoadTried | src/addrman.h:342-361 | every tried entry finds room in the bucket its key names: none is lost |
| AddrMan.Manager.LoadBuckets | src/addrman.h:362-378 | the new buckets come back with the same members, and the references are counted again |
| AddrManSpec.AttemptKeeps | src/addrman.cpp:370-387 | an attempt keeps the manager consistent exactly when the address is unknown or the time is not negative |
| AddrManSpec.GoodKeeps | src/addrman.cpp:264-311 | `Good_` keeps the manager consistent exactly when the address is unknown or the time is positive |
| AddrManSpec.BadTimes | src/addrman.cpp:264-387 | one address added, then reported good at time 0 or attempted at time -1: the manager fails its own check |
| AddrManSpec.InSomeBucket | src/addrman.cpp:290-305 | every entry outside the tried table is in some new bucket |
| AddrManSpec.PromoteKeeps | src/addrman.cpp:206-262 | a promotion keeps the invariant, whichever entry gives way |
| AddrManSpec.AddKeeps | src/addrman.cpp:313-368 | `Add_` keeps the invariant in every branch |
| AddrManSpec.AddForgets | src/addrman.cpp:313-368 | `Add_` leaves the tried table alone and forgets at most addresses whose only reference was in the bucket it filled |
| AddrManAdded.AddsToKnown | src/addrman.cpp:320-332 | adding a known address: its entry advertises a service exactly when it did or the argument does, its time changes only if there is news and is then the given one less the penalty, and everything else of it stays; every other entry that is left keeps all but references and order |
| AddrManAdded.AddsNew | src/addrman.cpp:351-366 | adding a new address: its entry holds what was given, less the penalty, without any history, and is in the new bucket that address and source name; every other entry that is left keeps all but references and order |
| AddrManAdded.AttemptsCount | src/addrman.cpp:264-387 | after a success an entry is tried and has no failed attempt; n attempts later it has n and the time of the last |
| AddrManAdded.ConnectedEntry | src/addrman.cpp:518-536 | a sighting renews the time of its entry only if that is older by more than 20 minutes, and changes nothing else |
| AddrManAdded.TerribleIff | src/addrman.cpp:40-58 | an entry tried within the last minute is never terrible; any other is exactly if it is from the future, was never seen, not for 30 days, failed three times without a success or ten times a week after its last |
| AddrManSpec.ConnectedKeeps | src/addrman.cpp:518-536 | `Connected_` keeps the invariant |
| AddrManSpec.GetAddrKeeps | src/addrman.cpp:493-516 | answering an address request keeps the invariant |
| AddrManSpec.NextKeeps | src/addrman.cpp:206-536 | every operation, at a proper time, keeps the invariant, saving and loading included |
| AddrManSpec.RunKeeps | src/addrman.cpp:434-490 | every state of every run from the empty manager is consistent |
| AddrManSteps.EmptyInv | src/addrman.h:383-391 | the empty manager satisfies the invariant |
| AddrManSteps.TouchKeeps | src/addrman.cpp:370-387 | changing times and counters of an entry within their bounds keeps the invariant |
| AddrManSteps.CreateKeeps | src/addrman.cpp:96-106 | a new entry is consistent but for its missing reference |
| AddrManSteps.AddRefKeeps | src/addrman.cpp:345-356 | counting a reference before it is placed leaves one reference pending |
| AddrManSteps.PutKeeps | src/addrman.cpp:360-366 | placing the pending reference completes the invariant |
| AddrManSteps.EvictKeeps | src/addrman.cpp:164-172 | dropping a reference, and the entry with its last one, keeps the invariant |
| AddrManSteps.DeleteKeepsIndexes | src/addrman.cpp:164-172 | deleting an entry by swapping it to the end keeps the address index and the random order |
| AddrManPromote.StripKeeps | src/addrman.cpp:210-218 | an entry without references is the only thing amiss after stripping |
| AddrManPromote.AppendKeeps | src/addrman.cpp:225-231 | appending it to its tried bucket restores the invariant |
| AddrManPromote.ReorderKeeps | src/addrman.cpp:128-150 | permuting a tried bucket changes nothing that matters |
| AddrManPromote.ReplaceKeeps | src/addrman.cpp:233-261 | taking over another entry's slot restores the invariant |
| AddrManCheck.CheckEntry | src/addrman.cpp:445-459 | the per-entry part of the check finds an error exactly when entry, index and random order disagree |
| AddrManCheck.CheckEntries | src/addrman.cpp:441-460 | collects the tried ids and the reference counts of the others |
| AddrManCheck.CheckTried | src/addrman.cpp:465-473 | finds an error exactly when the tried buckets do not list each tried id once |
| AddrManCheck.CheckNew | src/addrman.cpp:475-484 | finds an error exactly when some reference count is not the number of buckets that hold the id |
| AddrManCheck.InvAgrees | src/addrman.cpp:434-490 | a consistent manager passes the whole check |
| AddrManReply.RoutableServed | src/addrman.cpp:493-516 | the addresses served are different, routable and in the table |
| AddrManReply.RoutableCount | src/addrman.cpp:493-516 | as many addresses are served as there are routable entries among those visited |
| AddrManReply.ReplyIsRight | src/addrman.cpp:493-516 | stopping at the limit or at the end of the order gives the smaller of limit and routable entries |
| AddrManStore.Orders | src/addrman.h:284-307 | the two id lists of the format are the new and the tried entries and nothing else |
| AddrManStore.RenamedKeeps | src/addrman.h:251-379 | a manager renamed by the format is as consistent as the original |
| AddrManStore.RenamedSize | src/addrman.h:308-318 | a renamed bucket has as many entries as before |
| AddrManLoad.TriedRoom | src/addrman.h:342-361 | while the tried table is refilled its buckets always have room |
| AddrManLoad.ReferenceFits | src/addrman.h:362-378 | the limit of references per entry never stops the loader |
| AddrManLoad.StreamShape | src/addrman.h:273-318 | a saved stream holds the header, the new entries, the tried entries and the buckets, at known places |
| AddrManLoad.Loaded | src/addrman.h:319-378 | what the loader builds step by step is the original renamed |
| AddrManLimits.GroupTriedBuckets | src/addrman.cpp:12-24 | addresses of one group use at most four tried buckets, whatever the key |
| AddrManLimits.SourceNewBuckets | src/addrman.cpp:26-38 | addresses from sources of one group use at most 32 new buckets |
| AddrManLimits.GroupTriedEntries | src/addrman.h:102-119 | one group holds at most 256 entries of the tried table |
| AddrManLimits.TriedBucketAsks | src/addrman.cpp:12-24 | the tried bucket depends on the hash of nothing but the secret key with the key of the address, and the secret key with its group and a number below 4 |
| AddrManLimits.NewBucketAsks | src/addrman.cpp:26-38 | the new bucket depends on the hash of nothing but the secret key with both groups, and the secret key with the group of the source and a number below 32 |
| AddrManLimits.BucketsFollow | src/addrman.cpp:12-38 | with a hash that gives the number of its stream back, the buckets are that number modulo 4 and 32 |
| Random.GetRandInt | src/util.cpp:186-204 | any value below the bound, and zero for a zero bound |
| CheckQueue.Queue.constructor | src/checkqueue.h:123-125 | a new queue is empty, idle and good |
| CheckQueue.Queue.Add | src/checkqueue.h:138-149 | appends the checks, counts them and wakes one worker or all |
| CheckQueue.Queue.Settle | src/checkqueue.h:73-78 | accounts for a finished batch and tells whether the master must be woken |
| CheckQueue.Queue.Section | src/checkqueue.h:84-113 | one pass through the critical section: sleep, return the verdict and reset it, or take a batch |
| CheckQueue.Queue.Take | src/checkqueue.h:104-110 | takes the last checks of the queue in reverse order |
| CheckQueue.BatchFits | src/checkqueue.h:97-103 | a batch has at least one check and never more than the queue |
| CheckQueueProtocol.NextKeeps | src/checkqueue.h:63-149 | every atomic step of any thread keeps the invariant, and a verdict is the conjunction of the round |
| CheckQueueProtocol.RunKeeps | src/checkqueue.h:63-149 | the invariant holds after every interleaving, with any number of workers and spurious wake-ups |
| CheckQueueProtocol.WaitIsConjunction | src/checkqueue.h:130-149 | each verdict of `Wait` is exactly the conjunction of the checks added since the one before; no check runs twice, and all run when it is good |
| CheckQueueProtocol.CountersMean | src/checkqueue.h:69-113 | with the mutex free `nTodo` counts queued and held checks and `nTotal - nIdle` the threads with a batch |
| CheckQueueProtocol.ControlAsserts | src/checkqueue.h:166-173 | when nothing was added since the last verdict, two of the assertions of the control object, which are evaluated without the mutex, hold in every state, and the one on nTotal and nIdle holds exactly when no thread is inside its critical section |
| CheckQueueProtocol.SeparateReads | src/checkqueue.h:166-173 | with the two fields read at different moments the assertion compares the threads inside at the first with those asleep at the second; once all workers have started it holds exactly when the mutex is free at the second |
| CheckQueueProtocol.ControlMayAbort | src/checkqueue.h:89-96 | that assertion fails in the middle of every critical section that a thread can enter then, after a wake-up or at its start |
| CheckQueueProtocol.LateWorker | src/checkqueue.h:63-149 | a run with one worker and one check after which the assertion can fail: the worker is on its way back from a notification when `Wait` has returned |
| CheckQueueProtocol.StepExists | src/checkqueue.h:63-149 | every enabled step has a successor |
| CheckQueueProtocol.MasterNotStuck | src/checkqueue.h:84-96 | a master inside `Wait` can move, or a worker holds a batch |
| CheckQueueProtocol.LastWorkWakesMaster | src/checkqueue.h:77-79 | a worker that is done with the last work notifies a sleeping master; no other thread is touched |
| CheckQueueProtocol.StepMeasure | src/checkqueue.h:63-113 | every step brings the end of `Wait` nearer, but for wake-ups that find nothing |
| CheckQueueProtocol.WaitIsBounded | src/checkqueue.h:63-113 | a call of `Wait` makes a bounded number of moves, not counting wake-ups that find nothing |
| CheckQueueProtocol.WaitReturns | src/checkqueue.h:63-113 | in every run without end in which no thread that holds a batch or a notification is passed over for ever, `Wait` returns, whatever the spurious wake-ups |
| VarInt.GetSizeOfVarInt | src/serialize.h:264-275 | the exact length of the encoding |
| VarInt.WriteVarInt | src/serialize.h:277-292 | writes the digits most significant first, through the temporary buffer |
| VarInt.ReadVarInt | src/serialize.h:294-307 | reads a number or runs out of stream |
| VarInt.RoundTrip | src/serialize.h:255-307 | a number within the type reads back as itself, a negative one as its low seven bits, and the rest of the stream is untouched |
| VarInt.SurvivesIff | src/serialize.h:264-307 | a signed number survives exactly when it is not negative |
| VarInt.BuffersSuffice | src/serialize.h:280-280 | the temporary buffer holds every 32-bit and 64-bit number |
| Amount.CompressAmount | src/core.cpp:171-188 | the loop computes the compact form modulo 2^64, and exactly for every amount of money; the digit assertion holds |
| Amount.DecompressAmount | src/core.cpp:190-214 | the loop computes the amount modulo 2^64 |
| Amount.CompressThenDecompress | src/core.cpp:162-214 | decompressing undoes compressing for every amount |
| Amount.DecompressThenCompress | src/core.cpp:162-214 | compressing undoes decompressing for every number, so the form is a bijection |
| Amount.MoneyFits | src/core.cpp:171-188 | no amount of money overflows 64 bits when compressed |
| Coins.Record.FromTransaction | src/coins.h:85-87 | a new record offers exactly the spendable outputs of its transaction |
| Coins.Record.Cleanup | src/coins.h:93-98 | drops the spent outputs at the end and no more |
| Coins.Record.ClearUnspendable | src/coins.h:100-106 | blanks the unspendable outputs and cleans up |
| Coins.Record.CalcMaskSize | src/coins.cpp:12-28 | adds the number of mask bytes up to the last one used and the number of those not zero |
| Coins.Record.HeaderCode | src/coins.h:138-142 | the header code; the assertion that something is unspent holds |
| Coins.Record.GetSerializeSize | src/coins.h:135-156 | the exact length of what `Serialize` writes, for every record not entirely spent |
| Coins.Record.Serialize | src/coins.h:159-185 | writes every record not entirely spent in the sparse format, amounts modulo 2^64 |
| Coins.Record.Unserialize | src/coins.h:188-219 | reads a record into the object, or runs out of stream |
| Coins.Record.Spend | src/coins.cpp:30-45 | spends exactly one available output, leaves the others, and records what undoing needs |
| CoinsFormat.PrunedParts | src/coins.h:138-141 | something is unspent exactly when the header's three parts say so |
| CoinsFormat.CodeParts | src/coins.h:194-198 | the header code gives back the coinbase flag, the first two outputs and the mask count, and fits 32 bits |
| CoinsFormat.MaskRoundTrip | src/coins.h:199-209 | reading the mask gives the availability of every output |
| CoinsFormat.OutsRoundTrip | src/coins.h:210-215 | reading the outputs gives those that were unspent, in place |
| CoinsFormat.OutRoundTrip | src/core.h:276-289 | an output survives compression of amount and script |
| CoinsFormat.TrimmedUnique | src/coins.h:93-98 | records that offer the same outputs are the same once cleaned up |
| CoinsFormat.RecordRoundTrip | src/coins.h:159-219 | reading back what was written gives the record without trailing spent outputs, and leaves the rest of the stream |
| CoinsFormat.UnchangedIff | src/coins.h:159-219 | a record comes back unchanged exactly when it has no trailing spent output and neither version nor height is negative |
| CoinsFormat.NegativeVersionLost | src/coins.h:163-219 | a record of version -1 comes back with version 127 |
| CoinsFormat.MoneyStorable | src/core.cpp:171-188 | records whose amounts are money can be stored |
| CoinsFormat.UnspendableAre | src/script.h:568-571 | scripts that begin with OP_RETURN can never be spent, whatever follows, and no others |
| CoinsCache.Database.GetCoins | src/txdb.cpp:29-31 | looks a record up |
| CoinsCache.Database.BatchWrite | src/txdb.cpp:56-66 | writes the batch, drops records entirely spent and takes the block only if there is one; as a whole, exactly if the database takes it |
| CoinsCache.CacheView.OverDatabase | src/coins.cpp:72-72 | a cache over the database shows what the database shows |
| CoinsCache.CacheView.OverCache | src/coins.cpp:72-72 | a cache over another cache shows what that one shows |
| CoinsCache.CacheView.GetCoins | src/coins.cpp:74-84 | finds what the stack shows and leaves a copy in every cache on the way |
| CoinsCache.CacheView.HaveCoins | src/coins.cpp:86-111 | tells whether the stack shows a record |
| CoinsCache.CacheView.SetCoins | src/coins.cpp:104-107 | changes the top layer only |
| CoinsCache.CacheView.GetBestBlock | src/coins.cpp:113-117 | the claimed block, remembered on the way |
| CoinsCache.CacheView.SetBestBlock | src/coins.cpp:119-122 | changes the top layer's claim only |
| CoinsCache.CacheView.BatchWrite | src/coins.cpp:124-129 | overwrites the layer with the batch and its claim with the block, even a null one |
| CoinsCache.CacheView.Flush | src/coins.cpp:131-136 | pushes everything to the base and empties the cache, always if the base is a cache, and over the database exactly if that takes the write; otherwise changes nothing |
| CoinsCache.CacheView.GetOutputFor | src/coins.cpp:142-147 | returns an output on offer; both assertions hold, and no layer's view changes |
| CoinsCache.CacheView.GetValueIn | src/coins.cpp:149-159 | the sum of the inputs over the view, zero for a coinbase; no view changes |
| CoinsCache.CacheView.HaveInputs | src/coins.cpp:161-180 | tells whether all inputs are on offer; no view changes |
| CoinsView.FetchKeepsViews | src/coins.cpp:74-96 | a lookup changes what no layer shows or claims |
| CoinsView.BestFetchKeepsViews | src/coins.cpp:113-117 | asking for the block changes what no layer shows or claims |
| CoinsView.FlushPushes | src/coins.cpp:131-136 | a flush moves the cache's view into its base and keeps the cache's own, up to records entirely spent; layers below the base stay |
| CoinsView.FlushExactIff | src/txdb.cpp:15-20 | the view survives to the letter exactly when the base is a cache or the cache holds no record entirely spent |
| CoinsView.FlushBestIff | src/coins.cpp:124-136 | the claimed block survives a flush exactly when the cache knows it, the base is the database, or the base knows no block of its own or that of the layer under it |
| CoinsView.FlushLosesClaim | src/coins.cpp:124-136 | a stack of two caches in which a flush takes the base's claim away |
| CoinsView.RunIsPlain | src/coins.cpp:74-136 | a stack of any depth, under any mix of reads, writes and flushes of any layer, behaves as one table |
| CoinsView.FlushAllReaches | src/coins.cpp:131-136 | flushing every cache, top first, leaves the whole view in the database |
| CoinsView.SameValueIn | src/coins.cpp:149-159 | layers that show the same give the same value of inputs |
| CoinsView.ValueFits | src/coins.cpp:154-156 | the sum over n inputs of money is at most n times the largest amount |
| CoinsView.CoinBaseIs | src/core.h:237-240 | a coinbase has one input, and that is the null one |
| Ledger.AppliedUnspent | src/main.cpp:1934-1951 | after a transaction its own outputs are unspent, and of the others exactly those it did not use |
| Ledger.RecordsTell | src/main.cpp:1948-1950 | the record of a new transaction tells its height, version and whether it is a coinbase; other records keep what they tell |
| LedgerValue.ValueConserved | src/miner.cpp:297-297 | a transaction conserves value: what the unspent outputs lose is its fee and what it destroys |
| LedgerValue.RunConserves | src/miner.cpp:297-322 | over a run the fees are what the unspent outputs lose and what is not destroyed |
| Ledger.UnspentAgainIff | src/main.cpp:1934-1951 | an output spent by one transaction of a run is unspent before a later one exactly when one from there on has its id and offers it again, and none after that spends it or has its id |
| Ledger.UnspentFrom | src/main.cpp:1934-1951 | an output that none has spent yet is unspent exactly when one of the run offers it last, or none has its id and it was unspent at the start |
| Ledger.SpentTwice | src/main.cpp:1934-1951 | between two uses of one output a transaction of its id has offered it again |
| Ledger.UndoHolds | src/main.cpp:1940-1943 | the undo records of a transaction hold exactly the outputs it spends, in order |
| Ledger.NeverSpentTwice | src/main.cpp:1934-1951 | with ids that are new and all different no output is spent twice |
| Ledger.KnownIds | src/main.cpp:1948-1950 | an id is known only from the start or from a transaction of the run |
| Miner.UpdateCoins | src/main.cpp:1934-1951 | spends every input, none of the assertions failing, returns an undo record for each, and adds the outputs |
| Miner.InputsAvailable | src/miner.cpp:294-295 | tells whether all inputs are unspent in the running view |
| Miner.FeeOf | src/miner.cpp:297-297 | the exact fee over the running view |
| Miner.P2SHSigOps | src/main.cpp:708-722 | adds up the operations of the scripts the inputs spend |
| Miner.Inputs | src/miner.cpp:172-224 | value and age of the inputs, and the parents that are not in the chain, entered in the dependency index |
| Miner.Collect | src/miner.cpp:165-233 | every candidate is either ready or waits, once; the dependency index lists exactly who waits for whom |
| Miner.PopHeap | src/miner.cpp:263-268 | takes an entry that no other precedes under the current order |
| Miner.Release | src/miner.cpp:326-341 | frees, once each, exactly the orphans whose last missing parent was just added, even if listed twice |
| Miner.CheckInputs | src/main.cpp:1989-2100 | asks for the verdict on a transaction and the records it spends from; no view changes |
| Miner.TryAdd | src/miner.cpp:294-309 | adds a transaction exactly if its inputs are available, there is room for its operations and the verdict on it is good; otherwise the view is unchanged |
| Miner.Select | src/miner.cpp:235-342 | the selection loop ends; what came up, in which order, and what of it was taken are as stated for the template |
| Miner.CreateNewBlock | src/miner.cpp:115-372 | the template is a valid sequence over the running view, within the size and operation limits, with exact fees; candidates come up once, exactly those whose parents got in, in the order of priority or fee; each that comes up is taken exactly if it passes there; the tip's view is unchanged |
| Miner.Clamped | src/miner.cpp:136-148 | options within their bounds are taken as they are, others moved to the nearest bound |
| Miner.SpendsOnce | src/miner.cpp:260-342 | no output is spent twice in a template, if no two transactions of the pool share an input, which `mapNextTx` ensures, or if the chain does not know their ids |
| Miner.InputsAreFree | src/miner.cpp:260-342 | over a pool without conflicts every input of a template is taken by one transaction only, and is unspent in the chain or offered by an earlier transaction of the template |
| MinerWhole.LeftOut | src/miner.cpp:270-309 | a transaction that came up and is not in the template had no place when it came up: no room, no room for its operations, too low a fee for a block past its minimum size, inputs it could not spend, or a bad verdict |
| MinerWhole.TakenWhole | src/miner.cpp:259-342 | a pool without cycles that fits whole, pays and passes is taken whole |
| MinerWhole.TemplateConserves | src/miner.cpp:297-361 | the fees a template takes are what the unspent outputs lose in value and what is not destroyed; with new ids only outputs that nobody can spend are |
| MinerTurns.ModesNext | src/miner.cpp:283-290 | the queue is sorted by fee from the first turn that uses up the room for high priorities or comes to a priority that is not high, or from the start if there is no such room |
| MinerTurns.FreeAbove | src/main.h:332-337 | a transaction goes free above the priority of one coin a day old in 250 bytes |
| MinerTurns.OrderedPop | src/miner.cpp:261-268 | the entry taken off the queue is preferred to all others that could come up then |
| MinerSpec.PopKeeps | src/miner.cpp:263-268 | taking an entry off the queue keeps the schedule free of repetitions |
| MinerSpec.ReleaseKeeps | src/miner.cpp:326-341 | releasing orphans queues none of them twice |
| MinerSpec.NothingForgotten | src/miner.cpp:260-342 | when the queue is empty a candidate has come up exactly if all its parents are in the block |
| MinerSpec.FreedCount | src/miner.cpp:326-341 | queue and waiting orphans together shrink with every turn of the loop |
| MinerSpec.PricedSnoc | src/miner.cpp:311-318 | fees and operations recorded with a transaction are those of the view it was added to |
| KeccakSpec.OffsetsAreTriangular | src/keccak.c:1016-1045 | the rotations are the triangular numbers along the walk of FIPS 202, section 3.2.2 |
| KeccakConstants.RoundConstantsAreFed | src/keccak.c:136-149 | bit 2^j - 1 of the constant of round k is bit j + 7k of the feedback register of FIPS 202, section 3.2.5, and every other bit is clear |
| KeccakNames.PlaceStep | src/keccak.c:1139-1156 | each argument list is the one before with pi applied |
| KeccakNames.PlaceInjective | src/keccak.c:1139-1156 | no argument list uses a lane twice |
| KeccakLanes.ThEltIsMix | src/keccak.c:958-972 | the regrouped sum is theta's column parity |
| KeccakLanes.ThetaMasked | src/keccak.c:975-1014 | theta maps complemented lanes to complemented lanes by a mask computed column by column |
| KeccakLanes.RhoMasked | src/keccak.c:1016-1045 | rotating commutes with complementing |
| KeccakLanes.KhiMasked | src/keccak.c:1047-1135 | the rewritten chi on lanes complemented as on input gives chi complemented as on output |
| KeccakLanes.MidIsTheta | src/keccak.c:1047-1056 | theta flips the complements of two columns |
| KeccakLanes.InIsPi | src/keccak.c:1047-1056 | pi brings them to the mask that chi expects |
| KeccakLanes.FastRoundIsRound | src/keccak.c:1392-1397 | a round on lanes held complemented is a plain round on the lanes |
| Keccak.Context.constructor | src/keccak.c:1525-1566 | a new context holds the empty message |
| Keccak.Context.Init | src/keccak.c:1525-1566 | six lanes start complemented; the context holds the empty message |
| Keccak.Context.ThetaInPlace | src/keccak.c:975-1014 | theta on the lanes under their current names |
| Keccak.Context.RhoInPlace | src/keccak.c:1016-1045 | rho on the lanes under their current names |
| Keccak.Context.KhiInPlace | src/keccak.c:1070-1135 | chi with complemented lanes under their current names |
| Keccak.Context.IotaInPlace | src/keccak.c:1137-1137 | the round constant goes into the first lane, whose place never changes |
| Keccak.Context.Round | src/keccak.c:1392-1397 | one round; the next names apply afterwards |
| Keccak.Context.P8ToP0 | src/keccak.c:1313-1347 | after eight rounds the moves put every lane back under its first name |
| Keccak.Context.EightRounds | src/keccak.c:1457-1464 | eight rounds agree with eight plain rounds |
| Keccak.Context.Permute | src/keccak.c:1452-1467 | 24 rounds on the complemented lanes are the plain permutation |
| Keccak.Context.InputBuf | src/keccak.c:183-188 | xors the block into the first nine lanes, complemented or not |
| Keccak.Context.Core | src/keccak.c:1568-1603 | after any call the context holds the message with the new bytes appended |
| Keccak.Context.PadTo | src/keccak.c:1618-1634 | builds the padding bytes in all three cases |
| Keccak.Context.Close | src/keccak.c:1607-1647 | the digest is plain KECCAK[1024] of the message bits and the extra bits, whatever the pieces; the context starts over |
| KeccakSponge.PadBytesArePad | src/keccak.c:1618-1634 | as bits the padding bytes are the extra bits and pad10*1 |
| KeccakSponge.EncDec | src/keccak.c:1643-1645 | writing a lane as bytes and reading it back gives the lane |
| KeccakSponge.AbsorbPrefix | src/keccak.c:1585-1600 | blocks that come later do not change the state after earlier ones |
| Words.XorComp | src/keccak.c:1047-1056 | the complement of a xor is the xor of the complements |
| Words.RolComp | src/keccak.c:1047-1056 | rotating a complement complements the rotation |
| Blake.Context.constructor | src/blake.c:895-903 | a new context holds the empty message |
| Blake.Context.Core | src/blake.c:905-941 | after any call the context holds the message with the new bytes appended |
| Blake.Context.SetCounter | src/blake.c:963-971 | what the two counter words are set to makes the next block count the message bits, or zero if it has none |
| Blake.Context.Complete | src/blake.c:905-941 | filling the block compresses it once with the counter one block on |
| Blake.Context.Close | src/blake.c:943-994 | the result is BLAKE-512 of the message bits and the extra bits with the counters of the standard; the context starts over |
| Blake.CounterStep | src/blake.c:933-934 | the carry between the words adds a block to the 128-bit counter from any value |
| Blake.CloseCounter | src/blake.c:963-971 | through every wrap the counter is the number of message bits, or zero for a block without any |
| Blake.LengthWords | src/blake.c:961-962 | the length field holds the length of the message modulo 2^128 |
| Blake.ChainIsFold | src/blake.c:922-938 | the streamed blocks carry the standard's counters |
| BlakeSpec.ShortPad | src/blake.c:972-978 | when the length fits the block the bytes are the extra bits and the padding |
| BlakeSpec.LongPad | src/blake.c:979-990 | when it does not they are the extra bits and the padding over two blocks |
| Base58.B58Encode | scripts/build_portal_indexes.py:72-83 | the big-number encoder |
| Base58.EncodeBase58 | src/base58.cpp:66-98 | the digit-array encoder gives what the big-number encoder gives |
| Base58.DecodeBase58 | src/base58.cpp:21-64 | decodes exactly the strings of the alphabet with white space around them; otherwise the vector is untouched |
| Base58.EncodeThenDecode | src/base58.cpp:21-98 | decoding what was encoded gives the bytes back |
| Base58.DecodeThenEncode | src/base58.cpp:21-98 | encoding what was decoded gives the string back without the white space around it |
| Base58.Room58 | src/base58.cpp:74-74 | 138/100 digits are always enough for the encoder |
| Base58.Room256 | src/base58.cpp:32-32 | 733/1000 digits are always enough for the decoder |
| Base58.AlphabetIs | src/base58.cpp:18-19 | the alphabet as ranges of characters |
| Base58.SpacesAre | src/base58.cpp:23-50 | white space is blank, tab, line feed, vertical tab, form feed and carriage return; no digit is among them |
| Radix.MultiplyAdd | src/base58.cpp:40-46 | one pass of the carry loop multiplies and adds; the carry is zero at the end |
| Radix.BufferSuffices | src/base58.cpp:74-74 | one inequality between powers bounds the digits needed for every length |
| Radix.SignificantIsDigits | src/base58.cpp:54-57 | digits without leading zeros are the digits of their number |
| Base58.EncodeBase58Check | src/base58.cpp:108-114 | encodes the bytes with four bytes of their hash |
| Base58.DecodeBase58Check | src/base58.cpp:116-133 | accepts exactly the strings whose last four bytes are the hash of the rest |
| Base58.CheckedIff | src/base58.cpp:108-133 | a string yields bytes exactly when it is, up to white space, their checked form |
| Base58.Base58Data.constructor | src/base58.cpp:139-142 | a new object is empty |
| Base58.Base58Data.SetString | src/base58.cpp:155-169 | splits what the string yields; accepts every string when no version bytes are asked for, because the verdict of the check is not looked at |
| Base58.Base58Data.ToString | src/base58.cpp:175-179 | the checked form of version and data |
| BlockTree.TraceBack | src/checkpoints.cpp:374-375 | following the parents reaches the ancestor at the height; the null check never fires |
| BlockTree.AncestorTransitive | src/checkpoints.cpp:473-523 | ancestors of ancestors are ancestors |
| BlockTree.AncestorsComparable | src/checkpoints.cpp:473-523 | two ancestors of one block are on one branch |
| BlockTree.GrowsKeeps | src/checkpoints.cpp:473-523 | new blocks change no ancestry |
| SyncCheckpoints.Checkpoints.ValidateSyncCheckpoint | src/checkpoints.cpp:473-523 | accepts exactly strict descendants of the current checkpoint, and marks invalid exactly blocks on another branch |
| SyncCheckpoints.Checkpoints.WriteSyncCheckpoint | src/checkpoints.cpp:525-534 | succeeds exactly if the database takes the write; it keeps all checkpoints of the run on one branch |
| SyncCheckpoints.Checkpoints.Restart | src/checkpoints.cpp:545-556 | with the block index found on disk, the checkpoints of the run stay on one branch, and the stored one is current again, exactly when the index knows the stored one; otherwise there is no checkpoint |
| SyncCheckpoints.SurviveIff | src/checkpoints.cpp:545-556 | under another block index that agrees where both know a block, checkpoints stay on one branch exactly when it knows the newest |
| SyncCheckpoints.LossForks | src/checkpoints.cpp:473-556 | three blocks for which a restart without the checkpointed one leads to checkpoints on two branches |
| SyncCheckpoints.Checkpoints.AcceptPendingSyncCheckpoint | src/checkpoints.cpp:558-602 | the pending checkpoint becomes the checkpoint exactly if its block is known, it may follow, and the outside steps needed succeed; it is forgotten exactly then or if it may not follow; says what is marked invalid |
| SyncCheckpoints.Checkpoints.BecomesCheckpoint | src/checkpoints.cpp:558-602 | a signed checkpoint that arrives before its block becomes the checkpoint once the block is known above the current one and can be connected and written |
| SyncCheckpoints.Checkpoints.ProcessSyncCheckpoint | src/checkpoints.cpp:849-901 | a received checkpoint becomes the checkpoint exactly if it is signed, its block is known, it may follow, and the outside steps needed succeed; an unknown one becomes pending; says what is marked invalid |
| SyncCheckpoints.Checkpoints.CheckSyncCheckpoint | src/checkpoints.cpp:617-646 | accepts a block above the checkpoint exactly when the checkpoint is its ancestor |
| SyncCheckpoints.NewestIsAboveAll | src/checkpoints.cpp:473-602 | every checkpoint of the run is an ancestor of the newest |
| SyncCheckpoints.AcceptedExtendsAll | src/checkpoints.cpp:617-646 | a block accepted above the checkpoint extends the branch of every checkpoint of the run |
| RollingCheckpoints.Rolling.Startup | src/checkpoints.cpp:318-355 | after a start with any file the table is what its whole records replay to |
| RollingCheckpoints.Rolling.GCRollingCheckpoints | src/checkpoints.cpp:401-406 | keeps the top heights |
| RollingCheckpoints.Rolling.LoadRollingCheckpoints | src/checkpoints.cpp:318-355 | inserts the records that are new, first one first, and keeps the top heights |
| RollingCheckpoints.Rolling.Reload | src/checkpoints.cpp:318-355 | loading twice changes nothing |
| RollingCheckpoints.Rolling.WriteRollingCheckpoint | src/checkpoints.cpp:301-316 | appends as many bytes of the record as the disk takes, and succeeds exactly if that is all of them |
| RollingCheckpoints.Rolling.MaybeRollForward | src/checkpoints.cpp:357-399 | locks the block 1023 below the tip and drops the lowest heights; the file gets what the disk takes of the record, and if that is all, a file of whole records replays to the table |
| RollingCheckpoints.Rolling.ClearRollingCheckpointsBelow | src/checkpoints.cpp:414-456 | drops the low heights; with the file replaced it holds whole records only, whatever it held before, and replays to the table |
| RollingCheckpoints.RecordsBehindTail | src/checkpoints.cpp:301-355 | bytes appended to a file are read behind what is left over of a partial record |
| RollingCheckpoints.AppendedReadsIff | src/checkpoints.cpp:66-69 | an appended record reads back exactly when the file ended with a whole record or the record repeats the partial one over and over |
| RollingCheckpoints.TornFile | src/checkpoints.cpp:301-355 | a write that tears after one byte makes the next record read as a height that was never locked |
| RollingCheckpoints.RecordRoundTrip | src/checkpoints.cpp:281-299 | decoding a record gives height and hash back |
| RollingLog.RollIsReplay | src/checkpoints.cpp:383-395 | inserting and dropping is the same as logging and replaying, even for a height dropped before |
| RollingLog.TopUnique | src/checkpoints.cpp:401-406 | the table of top heights is determined by what it is taken from |
| RollingLog.LoadTwice | src/checkpoints.cpp:318-355 | loading the log into the table it replays to changes nothing |
| RollingLog.OwnLog | src/checkpoints.cpp:435-450 | a log that lists a table replays to it |
| Merkle.Block.BuildMerkleTree | src/core.cpp:236-253 | fills the flat list with all levels and returns the root of the tree |
| Merkle.Block.AddLevel | src/core.cpp:244-249 | appends the level above |
| Merkle.Block.GetMerkleBranch | src/core.cpp:255-269 | reads the branch of an index off the flat list, past the last leaf too |
| Merkle.CheckMerkleBranch | src/core.cpp:271-284 | folds a branch into a leaf; zero for index -1 |
| Merkle.RootIsTopNode | src/core.cpp:236-253 | hashing level by level ends in the top of the recursive tree |
| Merkle.BranchLeadsToRoot | src/core.cpp:236-284 | a leaf with its branch leads to the root |
| Merkle.OnlyTheLeafPasses | src/core.cpp:271-284 | with a pair hash without collisions only the true leaf with the true branch leads to the root |
| Merkle.FlatRoot | src/core.cpp:252-252 | the last hash of the list is the root |
| Compact.BigNum.SetCompact | src/bignum.h:294-311 | the number that a code stands for |
| Compact.BigNum.GetCompact | src/bignum.h:313-335 | the code of a number, sign included, by one shift and the adjustment of the top bit; modulo 2^32 if the exponent does not fit |
| Compact.ShiftedIs | src/bignum.h:315-331 | the single shift gives mantissa and exponent of the byte-by-byte form |
| Compact.CompactRoundTrip | src/bignum.h:294-335 | a number comes back rounded toward zero with its sign, and the rounded number has the same code |
| Compact.UnsignedRoundTrip | src/bignum.h:294-335 | what comes back is below the number by less than one unit of the last byte kept |
| Compact.FitsIff | src/bignum.h:294-335 | the code stands for the rounded number exactly when the exponent fits eight bits |
| Compact.CodeMonotone | src/bignum.h:313-335 | larger numbers have larger codes |
| LockedPages.Manager.constructor | src/allocators.h:31-37 | a new manager counts nothing and locks nothing |
| LockedPages.Manager.LockRange | src/allocators.h:46-66 | adds a live range and counts it on every page it touches; locks exactly the newly touched pages |
| LockedPages.Manager.UnlockRange | src/allocators.h:69-89 | removes a live range, never finding a page unlocked; unlocks exactly the pages no longer touched |
| LockedPages.Manager.GetLockedPageCount | src/allocators.h:92-96 | the number of pages locked |
| LockedPages.LockedIff | src/allocators.h:39-42 | a page is locked exactly while a live range touches it; with none the table is empty |
| LockedPages.TouchesIff | src/allocators.h:50-52 | a range touches a page exactly when it has an address on it |

## Left out

- AddrMan.Manager.SelectTried: promises the oldest inspected entry only under the condition of `EvictsOldestIff`, because the code does not always return it.
- AddrMan.Manager.Load: is a constructor given the manager that was saved; loading into a used manager, with another bucket count or from a malformed file is not modelled.
- AddrManSpec.NextKeeps: loading is a step to any consistent renaming, as the loader is proved to produce one.
- CheckQueue.Queue.Section: `fQuit`, which nothing sets, is left out.
- CheckQueueProtocol.WaitReturns: assumes one master that adds nothing while it waits, as the callers do.
- VarInt.ReadVarInt: overflow of the accumulator wraps at the width of the type; for signed types the language leaves it undefined.
- CoinsFormat.RecordRoundTrip: the script format is any self-delimiting one; the special cases of `CScriptCompressor` are not modelled.
- CoinsCache.CacheView.GetValueIn: the sum is unbounded; `ValueFits` gives the bound within which 64 bits hold it.
- CoinsCache.Database.BatchWrite: what the database library does below an atomic batch is not modelled.
- CoinsCache.CacheView.SetCoins: the reference that `GetCoins` hands out for changing a record in place is modelled as a lookup followed by this.
- Miner.CreateNewBlock: the coinbase, the header, treasury outputs and the final trial connection are left out; finality, script operation counts, the priority formula and the verdict of `CheckInputs` on a transaction and the records it spends from are parameters.
- Miner.Inputs: pool transactions with a missing input, which the source says never happen, are excluded: the code then drops the waiting record while lists of dependers still point to it; orphan records are named by their place in the list instead of by pointer.
- Miner.PopHeap: the standard library's heap is modelled by what it promises, priorities are real numbers, and sizes and counts are unbounded.
- Keccak.Context.Round: the macros that update 25 named lanes are methods that compute all lanes and then write them under their names; the 32-bit variants and other unrollings are left out.
- Blake.Context.Close: the compression function is a parameter on the bits of the block and the joined counter, and the output is the chain value; BLAKE-384 is left out.
- Base58.DecodeBase58: strings hold no NUL character, and white space is that of the C locale.
- SyncCheckpoints.Checkpoints.WriteSyncCheckpoint: `ResetSyncCheckpoint` is left out, and so are checking signatures, relaying and connecting the block, whose outcomes are parameters.
- RollingCheckpoints.Rolling.MaybeRollForward: promises that file and table agree only for files of whole records; `AppendedReadsIff` says what other files do to a record.
- LockedPages.Manager.LockRange: pages are known by their number, addresses do not wrap, and the operating system's own lock calls always succeed.
- Merkle.Block.GetMerkleBranch: a negative index, for which the code reads outside its list, is excluded.
- The probabilistic selection of peers, the other hash functions, difficulty retargeting, script evaluation, wallet, network and RPC code are left out: they would add bulk or need random or floating-point reasoning, not harder properties.
