# A verified model of the Munt node core

Munt is a Bitcoin-derived node. This project models the parts of it that hold
state or arithmetic with global promises, and proves those promises for all
inputs, all runs and all interleavings:

- the layered coin cache with its FRESH and DIRTY flags, its index by chain
  position and its sibling view of witness outputs (`coins_*.dfy`);
- the address manager with its two tables, its shuffle vector, its counters and
  its serializer (`addrman*.dfy`);
- the cuckoo cache of verified signatures (`cuckoo_*.dfy`);
- the master and worker protocol of the check queue (`checkqueue_*.dfy`);
- compact blocks (`compact_*.dfy`);
- the rolling bloom filter (`bloom_*.dfy`);
- partial merkle trees (`merkle_*.dfy`);
- 256-bit limb arithmetic, compact targets and block work (`arith_*.dfy`);
- the block-index skip list and the active chain (`chain.dfy`);
- Golomb-coded set filters (`gcs_*.dfy`);
- Base58 (`base58_*.dfy`).

`common.dfy` holds what they share. Each part has the same build. A `*_model.dfy`
file gives the operations as functions on values. Files of proofs establish invariants, round trips and
refinements of these functions over whole runs. A last file holds the code as
the source has it, with objects, arrays and loops, and proves that it computes
the functions. A result of `None` in a model function stands for an exception or
a failed assert of the source.

Hash functions, random draws, clocks, the iteration order of hash maps, script
checks and block validation are parameters. Injectivity is asked of a hash only
where a row says so.

Where the code and its comments differ, the code is followed:

- `src/cuckoocache.h:388-389` says the first displacement uses `locs[0]`; the
  expression selects `locs[1]`.
- `src/blockencodings.h:62-68` decodes index lists that are not increasing when
  an index before the last is 65535.

Some promises do not hold of the code as it is. Each has a row with an input that
shows it and a row with the exact condition under which it holds:

| promise | fails | holds exactly when |
|---|---|---|
| flags of the coin cache after a read by position | MovedOutpointComesBack | IndexReadKeepsFlagsIff |
| the index of the coin cache after BatchWrite | MempoolRewriteIsIndexed | BatchWriteExactIff |
| a consistent address manager after Clear | ClearedIsInconsistent | EmptiedInvIff |
| recorded times of the address manager | ContactAtZero | StepCredibleIff |
| a loaded address manager is consistent | RepeatedAddressIsLost | LoadsConsistentIff |
| the scan for free positions ends | FullMessageNeverEnds | ScanEndsIff |
| blocks rebuilt from short ids | LargeBlockIsMisplaced | LeadsRightIff, BlockIsRebuilt |
| decoded index lists that increase | WrappedDecode | DecodedIncreasingIff |
| the chain is the tip's ancestors | StaleEntryStays | SetTip |
| all branches meet in LastCommonAncestor | NoCommonAncestor | LastCommonAncestor |
| `x *= x` is the square | OneSquaredInPlace | Multiply |
| matching in any accepted filter | WrappedValueIsMissed | MergeRightIff, AscendingIff |

`dafny verify dfyconfig.toml` checks the whole project.

## Model

| member | source | states |
|---|---|---|
| CoinsRuns.RunRefines | src/coins.cpp:150-583 | over every legal run of reads, AddCoin, SpendCoin, Uncache, Flush and new child caches, by hash and by position, at any depth, the stack shows exactly a stack of plain maps, every read reports the plain map's coin, the sibling shows exactly its witness outputs, and neither exception is reached; when transactions keep their places no assert fires and every layer's index stays exact; when positions are arbitrary, reads and spends by position must be safe in the sense of ReadSafe, and only an assert on the index can stop the run |
| CoinsRuns.StepRefines | src/coins.cpp:150-583 | one operation keeps the relation to the plain maps; only an assert on the index can stop a step, and only when places are not kept |
| CoinsRuns.StartRelated | src/coins.cpp:51-55 | an empty cache over a database, with or without a sibling over the witness coins, starts every run |
| CoinsRuns.WitnessCommutes | src/coins.cpp:239-247 | adding, spending and flushing commute with restriction to witness outputs, when an outpoint determines its output |
| CoinsFlags.GetShows | src/coins.cpp:150-237 | a read, by hash or by position, reports what the view shows at the outpoint it found and changes no level's view |
| CoinsFlags.GetKeepsSoundIff | src/coins.cpp:150-224 | a read keeps the stack sound, and the flags of every layer right, if and only if no layer it passes holds as spent the outpoint it finds unspent below |
| CoinsFlags.GetByHash | src/coins.cpp:150-237 | a read by hash changes no level's view, keeps the FRESH and DIRTY flags right and returns what the view shows |
| CoinsFlags.AddKeepsSoundIff | src/coins.cpp:239-297 | AddCoin throws exactly when this layer holds an unspent coin that would be replaced without leave; otherwise it changes the view at the outpoint only, and the flags stay right if and only if a coin not marked as an overwrite was new to the whole view |
| CoinsFlags.SpendKeepsSound | src/coins.cpp:311-351 | after a safe read, by hash or by position, spending removes the coin found from the view and nothing else, and keeps the flags right whether or not fresh entries are deleted |
| CoinsFlags.UncacheKeepsSound | src/coins.cpp:541-583 | dropping a clean entry, named by hash or by position, changes no view; what is dropped is stated by UncacheEffect |
| CoinsFlags.BatchWriteSound | src/coins.cpp:392-527 | writing a sound child into its parent never throws 'FRESH flag misapplied', makes the parent show what the child showed, and keeps the parent's flags right, in any iteration order |
| CoinsFlags.FlushKeepsView | src/coins.cpp:529-539 | Flush leaves the view unchanged and hands it to the parent |
| CoinsFlags.AllCoinsIsView | src/coins.h:381-399 | GetAllCoins returns exactly the unspent coins that point lookups see |
| CoinsIndex.IndexLookupAgrees | src/coins.cpp:150-224 | with an exact index a lookup by position and a lookup by hash return the same coin |
| CoinsIndex.AddKeepsExact | src/coins.cpp:262-278 | adding a coin at its place keeps the index the inverse of the coins' positions in every layer |
| CoinsIndex.SpendKeepsExact | src/coins.cpp:335-344 | spending keeps the index exact, and no assert of SpendCoin fires |
| CoinsIndex.UncacheKeepsExact | src/coins.cpp:541-583 | Uncache keeps the index exact |
| CoinsIndex.UncacheEffect | src/coins.cpp:541-583 | what Uncache takes out: the entry named, if and only if it is neither DIRTY nor FRESH, and with it, when the index is exact, every index entry that leads to it; all else is as before |
| CoinsIndex.UncacheUndoesRead | src/coins.cpp:150-583 | a coin read in from below and then uncached leaves the layer as it was, if and only if what was found below was not spent |
| CoinsFresh.AddFlags | src/coins.cpp:239-297 | AddCoin leaves the entry DIRTY, and FRESH if and only if it was so before, or the coin is no overwrite and the entry was not DIRTY |
| CoinsFresh.SpendFlags | src/coins.cpp:311-351 | a spend leaves no entry if it was FRESH and need not be kept, and else a spent DIRTY one, FRESH as before |
| CoinsFresh.AddedAndSpent | src/coins.cpp:239-351 | a coin new to the whole view, added and spent again, leaves the entries as they were |
| CoinsFresh.WriteAllMerges | src/coins.cpp:394-493 | BatchWrite merges every entry on its own whatever the order: a DIRTY one is taken over, dropped or erased according to the parent's own entry, a clean one ignored, and no other entry is touched |
| CoinsFresh.ComesAndGoes | src/coins.cpp:239-539 | a new coin added above a layer, flushed into it, spent above it and flushed again is gone from that layer, which is as it was: nothing below is told of it |
| CoinsFresh.DbTakesDirty | src/txdb.cpp:223-264 | the database is written exactly the DIRTY entries: spent ones are erased, the others stored, all else is kept |
| CoinsIndex.SpendByIndex | src/coins.cpp:311-351 | spending by position is spending by the hash placed there |
| CoinsIndex.UncacheByIndex | src/coins.cpp:541-583 | uncaching by position is uncaching by the hash placed there |
| CoinsBatch.LiveEntriesReachable | src/coins.cpp:494-523 | every live entry BatchWrite wrote is reachable by its position in every iteration order, even when a spent entry of the batch shares the position |
| CoinsBatch.BatchWriteExactIff | src/coins.cpp:394-523 | BatchWrite keeps the index exact if and only if it overwrites no entry of the parent that sits in the mempool |
| CoinsRefs.BatchIndex | src/coins.cpp:394-523 | where any position leads after a batch was written, in any order and whatever positions the coins have: to the last live outpoint written there; if there is none, to the last spent one written there, unless it led to a live coin; and else where the first loop left it |
| CoinsRefs.WriteOneIndex | src/coins.cpp:394-493 | one entry written touches the index at the position of the parent's own entry only: dropped with an entry that goes if the child has it at the same position, dropped with a replaced one if it leads to its transaction, and left leading to the null outpoint if it led nowhere |
| CoinsRefs.WriteThrowsIff | src/coins.cpp:431-439 | a batch is refused if and only if it has an entry marked FRESH and DIRTY for an outpoint that the parent has unspent |
| CoinsRefs.AddIndex | src/coins.cpp:262-278 | whatever positions the coins have, the position of an added coin leads to it, the one its outpoint had before no longer does, and all others lead where they did; a refused coin has moved the index but no entry |
| CoinsRefs.SpendIndex | src/coins.cpp:335-344 | spending an entry of the layer changes the index only when the entry is removed: then the position it was looked up by leads nowhere |
| CoinsRefs.AssertsFailIff | src/coins.cpp:150-344 | the asserts of a lookup by position fail if and only if the position is the mempool's, or the first layer that knows it has no entry where it leads; that of a spend if and only if a coin outside the mempool has no index entry |
| CoinsRefs.SomeOrder | src/coins.cpp:394-396 | every cache has an order in which its entries can be written, so no statement about all orders is empty |
| CoinsBatch.DbBatchWriteExact | src/txdb.cpp:223-264 | the database keeps its index exact when a batch is written to it |
| CoinsLimits.IndexReadKeepsFlagsIff | src/coins.cpp:150-224 | a read by position keeps the flags of every layer of the stack right, and the stack sound, if and only if no layer it passes holds as spent, under another position, the outpoint it finds unspent below; what each level shows is never changed |
| CoinsLimits.MovedOutpointComesBack | src/coins.cpp:150-224 | an input where that fails: reading a moved and spent outpoint by its old position loses the DIRTY flag, and the next flush brings the coin back |
| CoinsLimits.MempoolRewriteIsIndexed | src/coins.cpp:394-523 | an input where the index stops being exact: overwriting a mempool coin of the parent leaves an index entry at the mempool's position |
| CoinsCache.CoinsView.FetchCoin | src/coins.cpp:150-224 | the in-place lookup fills every layer passed exactly as the value model does and returns the entry with its index |
| CoinsCache.CoinsView.GetCoin | src/coins.cpp:226-237 | the object after the read is the modelled stack, and the coin is the modelled hit |
| CoinsCache.CoinsView.HaveCoin | src/coins.cpp:355-372 | true exactly when the view shows an unspent coin at the outpoint, or at the one found under a position; the stack stays sound if and only if the read is safe |
| CoinsCache.CoinsView.AccessCoin | src/coins.cpp:355-372 | the coin the view shows there, or the empty coin; the stack stays sound if and only if the read is safe |
| CoinsCache.CoinsView.AddCoin | src/coins.cpp:239-297 | cache and sibling end in the state the step function gives; the exception is the modelled one |
| CoinsCache.CoinsView.SpendCoin | src/coins.cpp:311-351 | cache and sibling end in the state the step function gives, and the coin moved out is the modelled one |
| CoinsCache.CoinsView.Uncache | src/coins.cpp:541-583 | the object after Uncache is the modelled stack, of which UncacheEffect says which entries are gone |
| CoinsCache.CoinsView.BatchWrite | src/coins.cpp:392-527 | three loops over the entries and the queued outpoints compute the modelled parent |
| CoinsCache.CoinsView.Flush | src/coins.cpp:529-539 | cache and sibling are pushed to their bases in whatever order the maps iterate; in a sound stack this cannot fail |
| CoinsCache.CoinsView.GetAllCoins | src/coins.h:381-399 | the loop returns the overlay of all layers |
| CoinsCache.CoinsView.constructor | src/coins.cpp:51-55 | a child of a cache with a sibling gets a child of the sibling as its own sibling |
| AddrRuns.RunInv | src/addrman.cpp:88-526 | every reachable manager satisfies the invariant, and no assert fires in any run of Add_, Good_, Attempt_, Connected_, SetServices_ and GetAddr_, whatever the times; if the times recorded are real ones, the clauses about times hold too |
| AddrRuns.StepInv | src/addrman.cpp:88-526 | one operation keeps the invariant and trips no assert |
| AddrRuns.StepCredibleIff | src/addrman.cpp:197-342 | the clauses about times (not negative, and a tried entry has been reached) survive an operation if and only if Good_ is given a time above zero and Attempt_ one not below zero, or the service is not known |
| AddrRuns.ContactAtZero | src/addrman.cpp:197-247 | a run after which they do not hold: a contact recorded at time zero |
| AddrCheck.CheckIsInv | src/addrman.cpp:392-466 | the tests of Check_ hold of exactly the states that satisfy the invariant and the clauses about times, apart from what Check_ does not look at: the range of ids, addresses that lead nowhere, and an entry zero whose address is missing, for which the lookup in mapAddr gives zero |
| AddrCheck.ShuffleIsFull | src/addrman.cpp:406-420 | as many entries as positions, each found at its own position, make vRandom a permutation of the ids |
| AddrInv.FreshInv | src/addrman.h:456-480 | a freshly constructed manager satisfies the invariant and the clauses about times |
| AddrInv.SwapRandomCore | src/addrman.cpp:100-118 | swapping two positions of vRandom keeps the invariant and never asserts |
| AddrInv.DeleteCore | src/addrman.cpp:120-132 | deleting an unreferenced entry keeps everything else consistent and never asserts |
| AddrInv.ClearNewCore | src/addrman.cpp:134-147 | clearing a slot of the new table keeps the invariant; an entry that loses its last reference is deleted |
| AddrEffects.DeleteAssertsIff | src/addrman.cpp:120-132 | with vRandom in order, the asserts of Delete hold exactly for a known entry that is not in tried and has no reference |
| AddrEffects.ClearAssertsIff | src/addrman.cpp:134-147 | with the tables in order, those of ClearNew hold exactly when the occupant of the slot, if there is one, has a reference |
| AddrOps.MakeTriedInv | src/addrman.cpp:149-195 | moving an entry to tried keeps the invariant: none of its asserts can fail |
| AddrOps.MakeTriedEffect | src/addrman.cpp:149-195 | the entry ends in its tried slot, an evicted entry is kept in new with one reference, and at most one other new entry is lost |
| AddrRuns.BucketAlwaysFound | src/addrman.cpp:225-241 | from any random start the search of Good_ finds a bucket that holds the entry |
| AddrRuns.GoodInv | src/addrman.cpp:197-247 | Good_ keeps the invariant |
| AddrRuns.GoodEffect | src/addrman.cpp:197-247 | marking a known new service good puts it in tried and keeps an evicted entry in new |
| AddrRuns.AddInv | src/addrman.cpp:249-320 | Add_ keeps the invariant, and returns true exactly for a routable address not known before |
| AddrRuns.AddEffect | src/addrman.cpp:249-320 | Add_ never touches the tried table, and besides the address itself it forgets at most one entry, which was terrible and had one reference left |
| AddrEffects.UnknownIsEntered | src/addrman.cpp:249-320 | an unknown address is entered if and only if the slot it belongs to is free or its occupant is terrible or referenced elsewhere too: there, with one reference, nothing recorded, and the time it was seen less the penalty; otherwise nothing of it remains |
| AddrEffects.KnownIsRefreshed | src/addrman.cpp:249-320 | a known address keeps its entry, refreshed, and gets one more reference, at the slot it belongs to by the new source, if and only if it was seen later than recorded, is not in tried, is below the limit and lucky, and that slot is not its own and is free or has a terrible occupant |
| AddrEffects.RefreshMeans | src/addrman.cpp:263-272 | hearing of a known address only adds services and never moves its time back; the time moves, to the time seen less the penalty, if and only if that is more than an hour of news, or a day when it was seen more than a day ago |
| AddrEffects.StepRecords | src/addrman.cpp:197-526 | every operation records what it records with the entry of its own service only; of no other entry anything changes but its place |
| AddrEffects.TimeNeverMovesBack | src/addrman.cpp:197-526 | over every history an entry that is still there keeps its service and first source, and its time never moved back |
| AddrEffects.CountedOnce | src/addrman.cpp:322-342 | over every history without a contact, at most one failure is counted for each entry, and none if one was counted since the last contact, when attempts are recorded at times not before that contact |
| AddrEffects.CountedAgainIff | src/addrman.cpp:322-342 | a second failure in a row is counted if and only if the first was recorded at a time before the last contact |
| AddrEffects.FairAfterContact | src/addrman.cpp:40-61 | after a contact an entry is terrible exactly when a minute has passed and the time it was seen is not within thirty days back and ten minutes ahead: no old failure counts |
| AddrEffects.JudgedAfterAttempt | src/addrman.cpp:40-61 | after an attempt an entry is terrible exactly when a minute has passed and it is out of date or has failed three times without ever a contact, or ten times without one for a week, this time included if it counts |
| AddrEffects.JudgedWhenNew | src/addrman.cpp:40-61 | an entry just heard of is terrible exactly when the time it was seen is not within thirty days back and ten minutes ahead |
| AddrEffects.TerribleStays | src/addrman.cpp:40-61 | a terrible entry of which nothing is heard stays terrible, unless it was seen in the future |
| AddrRuns.AttemptInv | src/addrman.cpp:322-342 | Attempt_ keeps the invariant |
| AddrRuns.ConnectedInv | src/addrman.cpp:490-508 | Connected_ keeps the invariant |
| AddrRuns.SetServicesInv | src/addrman.cpp:510-526 | SetServices_ keeps the invariant |
| AddrEffects.ConnectedBringsUp | src/addrman.cpp:490-508 | after a connection the time of the entry is at most twenty minutes behind; it moves exactly when it was further behind; noting the connection again changes nothing |
| AddrEffects.ServicesAreSet | src/addrman.cpp:510-526 | the services set last are those recorded, of the service named and of no other |
| AddrRuns.GetAddrInv | src/addrman.cpp:469-488 | the partial shuffle of GetAddr_ keeps the invariant and moves entries in vRandom only |
| AddrRuns.GetAddrReports | src/addrman.cpp:469-488 | GetAddr_ reports entries of the manager that are not terrible, within the wanted number |
| AddrReport.GetAddrExact | src/addrman.cpp:469-488 | GetAddr_ reports exactly as many entries as the least of 23 percent of all, 2500, and those that are not terrible: each address once and none terrible |
| AddrReport.EveryChoiceIsPossible | src/addrman.cpp:469-488 | whatever entries that are not terrible are chosen within that number, in whatever order, some draws make GetAddr_ report just these |
| AddrRuns.RandomIsPermutation | src/addrman.cpp:88-118 | vRandom lists every id once and its length is nTried + nNew |
| AddrRoundTrip.RoundTrip | src/addrman.h:300-454 | unserializing what was serialized gives exactly the renumbered manager: nothing is lost, dropped or pruned |
| AddrRoundTrip.ReloadedSameEntries | src/addrman.h:300-454 | the reloaded manager has the same addresses with the same persisted statistics and reference counts |
| AddrRoundTrip.ReloadedSameTables | src/addrman.h:300-454 | the reloaded manager has the same tried slots and the same new slots, up to renumbering |
| AddrRoundTrip.ReloadedInv | src/addrman.h:350-454 | the reloaded manager satisfies the invariant, and the clauses about times if the saved one did |
| AddrSerial.LoadingNeverAsserts | src/addrman.h:350-454 | whatever the stream, loading fails only where the stream does: no assert of the manager can fire |
| AddrLoading.LoadsConsistentIff | src/addrman.h:350-454 | a stream that loads gives a manager that satisfies the invariant if and only if neither count of its header is negative and no entry that is kept has the address of another entry that was read |
| AddrLoading.ReadAllOk | src/addrman.h:350-436 | whatever the stream, the entries read are in tables with exact reference counts, and the counters are exact unless a count of the header is negative |
| AddrEffects.ReadHomes | src/addrman.h:378-397 | a file without a usable table: every new entry read finds its home slot taken, and has a reference if and only if it is the one that took it |
| AddrEffects.HeaderReadIff | src/addrman.h:350-376 | the start of a file is accepted if and only if the key has 32 bytes and there are at most 65536 new and 16384 tried entries; its table is used if and only if the version is 1 and the number of buckets is 1024 with bit 30 set |
| AddrLoading.PruneRids | src/addrman.h:438-448 | the last loop removes exactly the entries without a reference, and every address that one of them has |
| AddrLoading.DistinctStreamsLoad | src/addrman.h:350-454 | a stream without two records of one address and without a negative count loads to a manager that satisfies the invariant |
| AddrLoading.RepeatedAddressIsLost | src/addrman.h:350-454 | a stream that loads to a manager outside the invariant: of two records of one address the second is pruned, and the address of the first with it |
| AddrSerial.EmptiedInvIff | src/addrman.h:456-480 | Clear leaves a consistent manager if and only if there was no entry and no address to clear away |
| AddrRoundTrip.ClearedIsInconsistent | src/addrman.h:456-480 | a manager that has heard of one address is consistent before Clear and not after it |
| AddrManager.AddrMan.constructor | src/addrman.h:456-480 | the constructed object is the fresh manager |
| AddrManager.AddrMan.Create | src/addrman.cpp:88-98 | the object after Create is the modelled one, with the next id |
| AddrManager.AddrMan.SwapRandom | src/addrman.cpp:100-118 | swaps two positions as modelled |
| AddrManager.AddrMan.Delete | src/addrman.cpp:120-132 | removes the entry as modelled |
| AddrManager.AddrMan.ClearNew | src/addrman.cpp:134-147 | clears the slot as modelled |
| AddrManager.AddrMan.MakeTried | src/addrman.cpp:149-195 | the loop over all buckets and the eviction compute the modelled manager |
| AddrManager.AddrMan.Good_ | src/addrman.cpp:197-247 | computes the modelled manager from any consistent one and keeps it consistent |
| AddrManager.AddrMan.Add_ | src/addrman.cpp:249-320 | computes the modelled manager and result, and keeps the manager consistent |
| AddrManager.AddrMan.Attempt_ | src/addrman.cpp:322-342 | computes the modelled manager and keeps it consistent |
| AddrManager.AddrMan.Connected_ | src/addrman.cpp:490-508 | computes the modelled manager and keeps it consistent |
| AddrManager.AddrMan.SetServices_ | src/addrman.cpp:510-526 | computes the modelled manager and keeps it consistent |
| AddrManager.AddrMan.GetAddr_ | src/addrman.cpp:469-488 | given as many draws as entries, reports exactly as many entries as the least of 23 percent of all, 2500, and those that are not terrible; no address twice; and only shuffles vRandom |
| AddrManager.AddrMan.Serialize | src/addrman.h:300-348 | the loops write the modelled stream; neither assert on the counters can fail |
| AddrManager.AddrMan.Unserialize | src/addrman.h:350-454 | the loops load any stream into a fresh object as modelled, and fail exactly when the stream does |
| AddrManager.AddrMan.Clear | src/addrman.h:456-475 | empties tables, counters and vRandom, and leaves the two maps as they are |
| CuckooRuns.LoadIsBounded | src/cuckoocache.h:258-409 | over every run of inserts, lookups and erases, live entries of the current epoch plus the counter never exceed E + max(1, E/16), and all live entries never exceed twice that |
| CuckooRuns.EpochCheckMakesRoom | src/cuckoocache.h:258-290 | after the check there is room for one more entry of the current epoch |
| CuckooRuns.InsertLoad | src/cuckoocache.h:361-409 | an insertion, however deep its eviction chain, keeps both bounds |
| CuckooRuns.LookupsAreRight | src/cuckoocache.h:341-446 | in every reachable cache a lookup of a non-default element agrees with a scan of the whole table, and finds only what was inserted |
| CuckooRuns.RunGood | src/cuckoocache.h:341-446 | over every run each non-default element is at one of its own eight places, occurs once, and live slots hold no default element |
| CuckooRuns.ContainsIsScan | src/cuckoocache.h:436-446 | looking at eight places decides membership in the whole table |
| CuckooRuns.InsertEffect | src/cuckoocache.h:361-409 | an insertion adds the element and loses at most one; without exhausted depth the lost one was garbage, and with it exactly the dropped one is lost |
| CuckooRuns.EpochCheckKeeps | src/cuckoocache.h:258-290 | the epoch check forgets no element and makes none live; what it does to each slot is stated by EpochCheckExact |
| CuckooRuns.EpochCheckExact | src/cuckoocache.h:258-290 | the check ages the table if and only if the counter has run out and the live recent slots fill an epoch: then live recent slots become live old ones and live old ones garbage, and the counter starts again; otherwise no slot changes and the counter is what is left of the epoch, but no less than a sixteenth of it and one |
| CuckooRuns.InsertedStays | src/cuckoocache.h:258-446 | an inserted element is found and stays live for a whole epoch of further insertions and one more, whatever else is inserted, looked up or erased, unless it is erased itself or an insertion runs out of depth |
| CuckooRuns.EraseEffect | src/cuckoocache.h:436-446 | erasing makes exactly the element named garbage; it can still be found |
| CuckooRuns.DropsIff | src/cuckoocache.h:391-409 | an insertion drops an element if and only if none of the elements in hand, at as many displacements as the depth allows, has room; it is the last one in hand |
| CuckooRuns.NextLocIs | src/cuckoocache.h:388-401 | a displaced element goes to the place after the one it came from in its own round of eight, one not displaced to its second place; never straight back if its places differ |
| CuckooRuns.LocIff | src/cuckoocache.h:212-222 | an element is at a location exactly when its hash lies in that location's even share of the range of 32 bits |
| CuckooRuns.NeverFull | src/cuckoocache.h:258-409 | in a table of 36 to 0x500_0000 slots no run ever makes more than 153 of 160 slots live, so one is always free |
| CuckooRuns.EpochIsShare | src/cuckoocache.h:309-322 | an epoch is 45 percent of the table rounded down, but at least one insertion, while the product fits in 32 bits |
| CuckooModel.Loc | src/cuckoocache.h:212-222 | the multiply-and-shift location of any element is within the table |
| CuckooCache.BitFlags.Set | src/cuckoocache.h:92-95 | sets one flag among flags packed eight to a byte and no other |
| CuckooCache.BitFlags.Unset | src/cuckoocache.h:103-106 | clears one flag and no other |
| CuckooCache.Cuckoo.constructor | src/cuckoocache.h:309-322 | the cache after setup |
| CuckooCache.Cuckoo.EpochCheck | src/cuckoocache.h:258-290 | counter, flags and epochs after the check are the modelled ones, described slot by slot by EpochCheckExact |
| CuckooCache.Cuckoo.Insert | src/cuckoocache.h:361-409 | table, flags and epochs after the insertion, and the element dropped, are the modelled ones |
| CuckooCache.Cuckoo.Contains | src/cuckoocache.h:436-446 | the answer is the modelled one, and erasing sets exactly the flag of the place found |
| CheckQueueRuns.EveryWaitIsSequential | src/checkqueue.h:69-188 | in every interleaving of master and workers, the results of Wait so far are those of one thread that runs all checks of a session when Wait is called; at most the result being computed is missing |
| CheckQueueRuns.WaitReturns | src/checkqueue.h:69-188 | a run in which no thread can do any more work has returned from every Wait, with the sequential results |
| CheckQueueRuns.RunsAreBounded | src/checkqueue.h:69-130 | the threads on their own take no more steps than the work there was, apart from two for every spurious wake-up |
| CheckQueueRuns.SomethingToDo | src/checkqueue.h:69-130 | while the master is inside Wait some thread can work: the master never sleeps un-notified with nothing to come |
| CheckQueueLive.EveryProgramRuns | src/checkqueue.h:69-188 | whatever the master wants to add, and wherever it wants to wait, some interleaving has just these calls in this order with every Wait returned, and its results are those of the sequential reference |
| CheckQueueLive.NoLostWakeUp | src/checkqueue.h:69-188 | in every interleaving, while there are checks in the queue and the master is not about to notify, some worker is awake, if there is any |
| CheckQueueLive.AddWakes | src/checkqueue.h:168-188 | several checks added wake every worker that waits, one check wakes one of them, whichever it is, and nobody exactly when none waits; the master can add or wait exactly when it is outside |
| CheckQueueLive.MasterIsCalledIff | src/checkqueue.h:78-86 | a worker wakes the waiting master if and only if it leaves nothing to do |
| CheckQueueLive.AnyoneMayWake | src/checkqueue.h:99-102 | any thread that waits may wake up for no reason, and none else; nothing but its own state changes |
| CheckQueueRuns.NextInv | src/checkqueue.h:69-188 | every step keeps: nTodo is the queue length plus all batches in flight, every added check is queued, in one batch or completed exactly once, nIdle and nTotal are exact, and the flags are about checks of this session |
| CheckQueueRuns.LockInv | src/checkqueue.h:69-123 | a critical section keeps the invariant; when it returns from Wait the result is true exactly when every check of the session passes, and the queue is reset |
| CheckQueueRuns.StartInv | src/checkqueue.h:143-159 | the queue after StartWorkerThreads satisfies the invariant |
| CheckQueueRuns.PoppedIsTop | src/checkqueue.h:115-120 | the batch taken and what is left make up the queue |
| CheckQueueRuns.BatchIsFairShare | src/checkqueue.h:108-115 | a batch is the greatest number of checks within the batch size that all threads, as many more as are idle, and one more could each take from the queue, but never less than one |
| CheckQueueLoop.CheckQueue.Push | src/checkqueue.h:168-180 | appends the checks and counts them |
| CheckQueueLoop.CheckQueue.TakeBatch | src/checkqueue.h:108-120 | pops the share that BatchIsFairShare describes, in stack order |
| CheckQueueLoop.CheckQueue.Section | src/checkqueue.h:78-123 | one critical section of Loop changes the guarded fields as the transition system does, and tells when to wake the master |
| CheckQueueLoop.RunBatch | src/checkqueue.h:124-128 | true exactly when it was true before and every check of the batch passes |
| CompactProofs.BlockIsRebuilt | src/blockencodings.cpp:28-211 | a block of at most 65536 transactions sent in compact form, met by pools without a colliding transaction, is rebuilt from the transactions asked for, whenever InitData accepts |
| CompactPrefill.AnyChoiceIsRebuilt | src/blockencodings.cpp:28-211 | the same for a block sent with any of its transactions in full, at any positions |
| CompactPrefill.AnyChoiceDescribes | src/blockencodings.cpp:58-84 | whatever transactions are sent in full, in the order of their positions, they are accepted and put where they belong, and the short ids stand for the rest in order |
| CompactPrefill.PrefillIff | src/blockencodings.cpp:68-83 | prefilled transactions are accepted if and only if none is null, each is meant for a 16-bit position and not for one beyond all transactions there can be so far; then each is at the position meant and all else is free |
| CompactPrefill.InitAnswers | src/blockencodings.cpp:58-112 | invalid exactly for a null header, no transaction, more than the limit, or a prefilled one that does not fit; failed exactly when two short ids are equal or a hash bucket gets too crowded |
| CompactPrefill.FullIsFinal | src/blockencodings.cpp:114-173 | when every short id has been found the scan stops: what comes after in the pool changes nothing |
| CompactFill.InitFillsExactly | src/blockencodings.cpp:58-178 | for an accepted message that describes a block of at most 65536 transactions, and pools without a collision and without two entries for one transaction in the memory pool, a position is filled if and only if it was prefilled or its transaction is in the memory pool or among the extra ones, and extra_count is the number of positions filled from the extra ones |
| CompactVerdict.ScansJudge | src/blockencodings.cpp:114-173 | whatever the pools hold, collisions included, if some short id is in neither of them: a position that a short id stands for is filled, with the first entry that has the id, if and only if there is one, at most one of them is in the memory pool, and no extra one has another witness hash; nothing else changes |
| CompactVerdict.ExtraIsDifference | src/blockencodings.cpp:114-173 | whatever the pools hold, extra_count is by how much the extra transactions changed mempool_count: positions they filled less those they cleared, also of the memory pool's |
| CompactScan.ScanEndsIff | src/blockencodings.cpp:86-94 | for every message whose prefilled transactions are accepted, the scan for free positions ends if and only if these are not 65536 or no short id is left; if it does not end, the guard of the inner loop holds after any number of rounds |
| CompactScan.FullMessageNeverEnds | src/blockencodings.cpp:58-94 | messages within the size limit on which it does not end: 65536 transactions sent along one after the other, and a short id |
| CompactScan.SkipEnds | src/blockencodings.cpp:91-92 | with fewer positions taken, the inner loop finds a free position before its 16-bit counter wraps around |
| CompactProofs.LargeBlockIsMisplaced | src/blockencodings.cpp:86-173 | any block of more than 65536 transactions that is within the size limit and has distinct short ids is not rebuilt when the pool holds transaction 65536, which is put in the place of the coinbase |
| CompactProofs.LeadsRightIff | src/blockencodings.cpp:90-108 | every short id leads to its own position, kept in 16 bits, if and only if there are at most 65536 transactions |
| CompactProofs.InitIsRight | src/blockencodings.cpp:58-178 | for any message that describes a block of at most 65536 transactions, with any transactions prefilled, every position InitData fills holds the block's transaction, if no pool transaction is mistaken for one of the block |
| CompactProofs.InitCounts | src/blockencodings.cpp:58-178 | for every accepted message of at most 65536 transactions and any pools, prefilled positions stay as sent and mempool_count is the number of the other positions that are filled |
| CompactProofs.IndexIdsLead | src/blockencodings.cpp:86-112 | without a collision the k-th short id leads to the k-th position nothing was prefilled at, kept in 16 bits |
| CompactProofs.FillRebuilds | src/blockencodings.cpp:186-211 | filling right positions with the missing transactions in order gives the block |
| CompactProofs.FillIff | src/blockencodings.cpp:196-211 | filling succeeds exactly when there are as many missing transactions as free positions |
| CompactProofs.DiffRoundTrip | src/blockencodings.h:45-75 | a strictly increasing list of 16-bit indexes survives its differential coding |
| CompactProofs.DecodedIncreasingIff | src/blockencodings.h:62-68 | a list of differences that decodes gives a strictly increasing list if and only if none of them but the last leads to 65535 |
| CompactProofs.WrappedDecode | src/blockencodings.h:62-68 | an input where the 16-bit offset wraps around and the list is not increasing |
| CompactModel.FreeForIds | src/blockencodings.cpp:64-84 | after prefilling exactly one position is free for each short id |
| CompactBlock.PartialBlock.PlacePrefilled | src/blockencodings.cpp:68-83 | every access is in range whatever the message, and the result is the modelled one |
| CompactBlock.PartialBlock.IndexShortIds | src/blockencodings.cpp:90-108 | run for any number of rounds, the scan stays in range and computes the modelled map when it ends; enough rounds end it exactly when the scan of the source ends |
| CompactBlock.PartialBlock.ScanPool | src/blockencodings.cpp:114-173 | both pool loops, with their early exits, compute the modelled positions and counts, which InitFillsExactly and ScansJudge determine |
| CompactBlock.PartialBlock.InitData | src/blockencodings.cpp:58-178 | for every message, status, positions and counts are the modelled ones, a scan that does not end included; InitAnswers and InitFillsExactly say which these are |
| CompactBlock.PartialBlock.FillBlock | src/blockencodings.cpp:186-222 | gives the filled block to the check, or reports it invalid, and cannot be called again after success |
| CompactBlock.WriteIndexes | src/blockencodings.h:69-74 | writes the modelled differences |
| CompactBlock.ReadIndexes | src/blockencodings.h:49-68 | reads all differences first and then adds them up, with the same result as decoding one by one |
| BloomRuns.ContainsIff | src/bloom.cpp:170-218 | after any insertions a key is contained if and only if each of its cells is marked by one of the keys that still count, which are more than the filter was built for and at most three generations |
| BloomRuns.RecentIsContained | src/bloom.cpp:170-218 | each of the last nElements inserted keys is contained |
| BloomRuns.RunDescribes | src/bloom.cpp:170-198 | after any insertions every cell is labelled with the generation of the last key that marked it, if that is one of the last three, and else empty |
| BloomRuns.WipeLabel | src/bloom.cpp:177-186 | the masked wipe clears exactly the cells labelled with the reused generation |
| BloomRuns.MarkLabel | src/bloom.cpp:190-197 | marking labels one cell with the generation and no other |
| BloomRuns.EveryCellIsHit | src/bloom.cpp:188-197 | every cell of a table of up to 2^26 words is the cell of a hash value: the one made of the word's number and the bit's |
| BloomRuns.GenerationIsHalf | src/bloom.cpp:138-146 | a generation is the least number of keys of which two generations are as many as the filter is built for |
| BloomRuns.Reused | src/bloom.cpp:172-176 | the generation number reused is that of the oldest of the three generations, and of no younger one |
| BloomFilter.RollingBloomFilter.constructor | src/bloom.cpp:138-165 | the filter starts empty in generation one |
| BloomFilter.RollingBloomFilter.WipeGeneration | src/bloom.cpp:178-186 | the loop over pairs of words wipes as modelled |
| BloomFilter.RollingBloomFilter.Insert | src/bloom.cpp:170-198 | data, generation and count after an insertion are the modelled ones |
| BloomFilter.RollingBloomFilter.Contains | src/bloom.cpp:206-218 | the answer is the modelled one |
| MerkleProofs.RoundTrip | src/merkleblock.cpp:35-155 | with an injective pair hash and distinct ids within the size limit, building, packing, unpacking and extracting returns the merkle root and exactly the matched ids with their positions, in order |
| MerkleProofs.RoundTripUnlessTwins | src/merkleblock.cpp:35-155 | for every pair hash and every list of ids within the limit: exactly the matched ids with their positions come back, in order, and the merkle root with them, unless a node on the way to a match has two equal children; then zero |
| MerkleProofs.RootIsMerkleRoot | src/merkleblock.cpp:35-50 | the root is the merkle root computed level by level, where neighbours are hashed together and a last one without a neighbour with itself |
| MerkleProofs.NothingMayBeAdded | src/merkleblock.cpp:124-155 | of two trees of which one has all bits and hashes of the other and more hashes, or eight bits more, at most one is accepted |
| MerkleProofs.OutOfLimits | src/merkleblock.cpp:124-138 | no tree for no transactions or more than 16666 is accepted, nor one with more hashes than transactions or than bits |
| MerkleProofs.AcceptedIsAuthentic | src/merkleblock.cpp:70-155 | for any tree at all, with the true number of transactions, whose extraction returns the true root (not zero): every reported id is the one at the reported position, and no position is reported twice |
| MerkleProofs.NodesDiffer | src/merkleblock.cpp:35-50 | different nodes of a height have different hashes, so the equal-branches check never rejects a built tree |
| MerkleProofs.BuildExtract | src/merkleblock.cpp:52-106 | extraction reads any built subtree back, wherever it stands in the tree, and nothing more; it turns bad exactly where it meets two equal children |
| MerkleProofs.BuildIsSmall | src/merkleblock.cpp:52-68 | a built tree has no more hashes than transactions and at least one bit for every hash, as the extractor demands |
| MerkleProofs.ExtractAuthentic | src/merkleblock.cpp:70-106 | an extraction that ends at the hash of its node reported only leaves below that node, each with its own id |
| MerkleProofs.UnpackPack | src/merkleblock.h:95-111 | unpacking gives the flag bits back, with zeros up to the next byte |
| MerkleTree.PartialMerkleTree.constructor | src/merkleblock.cpp:108-120 | the object built is the modelled tree |
| MerkleTree.PartialMerkleTree.TraverseAndBuild | src/merkleblock.cpp:52-68 | appends exactly the modelled bits and hashes |
| MerkleTree.PartialMerkleTree.TraverseAndExtract | src/merkleblock.cpp:70-106 | consumes bits and hashes and reports matches as modelled, failures included |
| MerkleTree.PartialMerkleTree.ExtractMatches | src/merkleblock.cpp:124-155 | returns the modelled root, or zero, and appends to the caller's index list |
| MerkleTree.PartialMerkleTree.PackBits | src/merkleblock.h:106-110 | the or-ing loop packs as modelled |
| MerkleTree.PartialMerkleTree.UnpackBits | src/merkleblock.h:99-105 | the loop unpacks as modelled |
| MerkleTree.Select | src/merkleblock.cpp:12-30 | selects exactly the transactions whose ids are asked for |
| ArithLimbs.Add | src/arith_uint256.h:135-145 | the sum mod 2^256, with every intermediate below 2^64, also when both operands are the same object |
| ArithLimbs.Complement | src/arith_uint256.h:69-75 | 2^256 - 1 minus the number |
| ArithLimbs.Increment | src/arith_uint256.h:173-180 | the number plus one, mod 2^256 |
| ArithLimbs.Negate | src/arith_uint256.h:77-84 | the negative mod 2^256 |
| ArithLimbs.Subtract | src/arith_uint256.h:147-151 | the difference mod 2^256, which is the true difference when it is not negative |
| ArithLimbs.MultiplySmall | src/arith_uint256.cpp:56-65 | the product with a 32-bit number mod 2^256, with every intermediate below 2^64 |
| ArithLimbs.Multiply | src/arith_uint256.cpp:68-81 | the product mod 2^256, with every intermediate below 2^64; zero when the factor is the same object, which is cleared first |
| ArithTarget.OneSquaredInPlace | src/arith_uint256.cpp:68-81 | one times itself in place is zero |
| ArithShift.ShiftLeft | src/arith_uint256.cpp:22-36 | the product with a power of two mod 2^256, for every shift |
| ArithShift.ShiftRight | src/arith_uint256.cpp:39-53 | the floor of the quotient by a power of two, for every shift |
| ArithShift.OrLimbs | src/arith_uint256.cpp:29-33 | or-ing numbers without a common bit is adding them |
| ArithDivide.CompareTo | src/arith_uint256.cpp:110-119 | decides the order of the numbers |
| ArithDivide.Bits | src/arith_uint256.cpp:172-184 | the position of the highest bit set plus one, or zero |
| ArithDivide.Divide | src/arith_uint256.cpp:84-107 | the floor of the quotient for every divisor but zero, which is reported |
| ArithDivide.SetBitValue | src/arith_uint256.cpp:98-101 | setting a bit below all bits set so far adds it to the quotient |
| ArithCompact.OverflowIff | src/arith_uint256.cpp:215-219 | the overflow flag is set exactly when the number stood for is at least 2^256 |
| ArithCompact.EncodedValue | src/arith_uint256.cpp:204-245 | decoding an encoded number sets no flag and gives it back without the bytes cut off |
| ArithCompact.NegativeEncoded | src/arith_uint256.cpp:204-245 | a number encoded with the sign bit decodes as negative, to what is kept of it and without overflow, if and only if it is not zero |
| ArithCompact.SignedPair | src/arith_uint256.cpp:204-222 | of two words that differ in bit 23 alone both stand for the same number and overflow alike, and the one with the bit is negative if and only if that number is not zero, the other one never |
| ArithCompact.GreatestBelow | src/arith_uint256.cpp:204-245 | no number with a compact form lies between the encoded number and what is kept of it |
| ArithCompact.KeptIsMonotone | src/arith_uint256.cpp:204-245 | rounding to compact form respects the order |
| ArithCompact.RelativeError | src/arith_uint256.cpp:224-245 | what the encoding cuts off is less than one part in 2^15 |
| ArithCompact.EncodeAgain | src/arith_uint256.cpp:224-245 | encoding what was kept gives the same compact form again |
| ArithCompact.TargetFits | src/chain.cpp:268-281 | adding one to an accepted target never wraps around to a zero divisor |
| ArithCompact.WorkIs | src/chain.cpp:268-281 | the quotient computed without 2^256 is the floor of 2^256 / (target + 1) |
| ArithCompact.WorkIsAntitone | src/chain.cpp:268-281 | a higher target means no more work |
| ArithTarget.SetCompact | src/arith_uint256.cpp:204-222 | limbs and both flags are those of the compact form; which these are, OverflowIff, SignedPair and EncodedValue determine |
| ArithTarget.GetCompact | src/arith_uint256.cpp:224-245 | the compact form of any number, with the sign bit when asked for, and both asserts hold |
| ArithTarget.GetLow64 | src/arith_uint256.h:245-249 | the number mod 2^64 |
| ArithTarget.GetBlockProof | src/chain.cpp:268-281 | zero for a negative, overflowing or zero target, and else the floor of 2^256 / (target + 1); the division never fails |
| BlockChain.BlockIndex.GetAncestor | src/chain.cpp:228-255 | the walk over skip pointers ends and returns exactly what following pprev returns, and null only out of range or below the root of a partial tree |
| BlockChain.BlockIndex.BuildSkip | src/chain.cpp:262-266 | sets the skip pointer to the ancestor at the skip height, so that the condition GetAncestor relies on holds of the new entry |
| BlockChain.GetSkipHeight | src/chain.cpp:218-226 | the skip height is below the height |
| BlockChain.SkipsAre | src/chain.cpp:218-226 | from an even height as many skips lead to the root as the height has one bits, from an odd one half as many as the even one below has, rounded up, and one |
| BlockChain.SkipsAreFew | src/chain.cpp:218-226 | skip pointers alone lead from any height below 2^k to the root in at most k + 1 steps |
| BlockChain.LowestOneInverted | src/chain.cpp:214-215 | n & (n - 1) turns the lowest one bit into a zero |
| BlockChain.WalkFinds | src/chain.cpp:228-255 | following pprev finds an entry at exactly the heights from the root of the tree to the entry itself |
| BlockChain.Chain.SetTip | src/chain.cpp:18-29 | the early stop leaves every position from the root of the tip's tree upwards equal to the tip's ancestor; positions below the root stay as they were, and the whole chain is the tip's ancestors if and only if those were null |
| BlockChain.StaleEntryStays | src/chain.cpp:18-29 | a run in which an entry below the root of the new tip's tree stays |
| BlockChain.Chain.Fill | src/chain.cpp:359-375 | the loop of both SetTip variants, for any height offset |
| BlockChain.StopsEarly | src/chain.cpp:25-28 | once an entry is in place all below it down to its root are |
| BlockChain.Chain.FindFork | src/chain.cpp:87-96 | the highest common block of a branch and the chain, null exactly when there is none, and everything below it is shared |
| BlockChain.LastCommonAncestor | src/chain.cpp:283-303 | the highest common ancestor; the assert at the end fails exactly when there is none and the two trees start at different heights |
| BlockChain.NoCommonAncestor | src/chain.cpp:283-303 | two entries for which that assert fails |
| GcsProofs.CodeDecodes | src/blockfilter.cpp:36-66 | every number below 2^64 is decoded from its Golomb-Rice code, for every parameter and wherever it stands |
| GcsProofs.CodesDecode | src/blockfilter.cpp:121-172 | the codes of the differences of an ascending list decode to the list |
| GcsProofs.BuiltIsAccepted | src/blockfilter.cpp:121-172 | a built filter is accepted by the decoding constructor, which finds exactly the sorted hashes in it and no excess byte |
| GcsProofs.AcceptsIff | src/blockfilter.cpp:117-142 | an encoding is accepted if and only if it is N words, fewer than 2^32, each some ones, a zero and P bits, and then less than a byte of anything, with P at most 64 unless N is zero |
| GcsProofs.BuiltIs | src/blockfilter.cpp:144-172 | a filter is built exactly of fewer than 2^32 elements, and of any at all only with P up to 64: their codes in order, and zeros up to the next byte |
| GcsProofs.SortMembers | src/blockfilter.cpp:106-115 | the hashed set is ascending and has the members and the length of the hashes |
| GcsProofs.MergeIff | src/blockfilter.cpp:174-204 | one pass over two ascending lists is true exactly when they have a common member |
| GcsProofs.MergeRightIff | src/blockfilter.cpp:174-204 | for any values at all, in any order, the pass answers every sorted query right if and only if each value that comes after a greater one has come before |
| GcsProofs.AscendingIff | src/blockfilter.cpp:121-204 | the values of an encoding ascend if and only if no sum of its differences exceeds 64 bits |
| GcsProofs.WrappedValueIsMissed | src/blockfilter.cpp:121-204 | at every parameter up to 63, an accepted encoding with a value that the pass does not find, because the sum of its differences wraps around |
| GcsProofs.WrappingCodeLength | src/blockfilter.cpp:36-51 | the first code of that encoding has 2^(64 - P) + P bits; at P = 19, which blocks use (src/blockfilter.h:93), these are four tebibytes |
| GcsProofs.MatchAnyIff | src/blockfilter.cpp:174-216 | MatchAny is true exactly when some query hashes to a value of the set; an element of the set always matches |
| GcsProofs.SplitIsWhole | src/blockfilter.cpp:72-96 | the form with 32-bit halves equals the upper half of the 128-bit product |
| GcsProofs.SplitFits | src/blockfilter.cpp:83-94 | no product or sum of the split form exceeds 64 bits |
| GcsProofs.InRange | src/blockfilter.cpp:68-96 | the mapped value is below the range |
| GcsProofs.RangeIff | src/blockfilter.cpp:68-104 | an element is mapped to a value exactly when its hash lies in that value's even share of the range of 64 bits |
| GcsProofs.RangeIsOnto | src/blockfilter.cpp:68-96 | no value of a range of up to 2^64 is left out |
| GcsProofs.RangeAscends | src/blockfilter.cpp:68-96 | a greater hash is never mapped to a smaller value |
| GcsFilter.GolombRiceEncode | src/blockfilter.cpp:36-51 | runs of at most 64 ones write the modelled code |
| GcsFilter.GolombRiceDecode | src/blockfilter.cpp:53-66 | reads the modelled number, or fails at the end of the stream |
| GcsFilter.GCSFilter.constructor | src/blockfilter.cpp:144-172 | the filter built is accepted and stands for the sorted hashes |
| GcsFilter.GCSFilter.CheckEncoding | src/blockfilter.cpp:121-142 | accepts exactly the encodings that hold N numbers and no byte beyond them |
| GcsFilter.GCSFilter.MatchInternal | src/blockfilter.cpp:174-204 | the pass that decodes as it goes computes the merge of the decoded values with the queries, and so whether they have a common member when no value is hidden by an earlier one |
| GcsFilter.GCSFilter.MatchAny | src/blockfilter.cpp:212-216 | true exactly when some element hashes to a value of the filter, when no value is hidden by an earlier one |
| GcsFilter.GCSFilter.Match | src/blockfilter.cpp:206-210 | true exactly when the element hashes to a value of the filter, when no value is hidden by an earlier one |
| GcsFilter.GCSFilter.FromEncoding | src/blockfilter.cpp:121-142 | an accepted encoding is taken over as it is |
| GcsFilter.LoadAndMatch | src/blockfilter.cpp:121-216 | a filter taken from any accepted encoding whose sums fit in 64 bits answers exactly whether a query hashes to one of its values |
| GcsFilter.BuildAndMatchOne | src/blockfilter.cpp:121-210 | a filter built from a set answers for one element exactly whether it shares its hash with one of the set; an element of the set always matches |
| GcsFilter.BuildAndMatch | src/blockfilter.cpp:121-216 | a filter built from a set and asked about another answers exactly whether their hashes meet |
| Base58.DecodeEncode | src/base58.cpp:28-116 | decoding an encoded byte string gives it back, for every byte string |
| Base58.EncodeDecode | src/base58.cpp:28-116 | encoding what was decoded gives the text back without the spaces around it, for every accepted text |
| Base58.DecodesIff | src/base58.cpp:28-76 | a string is decoded if and only if, up to a NUL character, it is digits of the alphabet with spaces before and after them |
| Base58.SpacesAre | src/base58.cpp:30-34 | the spaces skipped are blank, tab, line feed, vertical tab, form feed and carriage return |
| Radix.EncodeBufferSuffices | src/base58.cpp:86-88 | the buffer of 138/100 digits to a byte holds any number of bytes |
| Radix.DecodeBufferSuffices | src/base58.cpp:40-41 | the buffer of 733/1000 bytes to a digit holds any number of digits |
| Radix.CanonicalUnique | src/base58.cpp:28-116 | a number has one notation without leading zeros |
| Base58Code.MultiplyAdd | src/base58.cpp:49-57 | multiplies the buffer and adds a digit in place; the carry is used up, so the assert never fires |
| Base58Code.EncodeBase58 | src/base58.cpp:78-116 | computes the modelled text |
| Base58Code.DecodeBase58 | src/base58.cpp:28-76 | computes the modelled bytes, or fails as modelled |

## Left out

- `GetBestBlock`, `hashBlock` and the memory accounting of the coin cache.
- `GetAllCoinsIndexBased` and its variants, which repeat `GetAllCoins` by position.
- The 30-bit field that packs a coin's height, and 32-bit wrap-around of heights.
- `Select_` and `GetChance` of the address manager: random probing in floating point.
- `Check_` of the address manager as a loop; its tests are modelled as one predicate.
- AddrManager.AddrMan.Unserialize: a stream with a negative count of new entries is loaded as if ids started at zero, where the source would go on with negative ids. Loading into a manager that is not freshly constructed is not modelled, because Clear leaves its maps in place.
- Bytes of the address manager's file format: its stream is a sequence of typed tokens.
- Stop requests of the check queue, its destructor, and wrap-around of its unsigned counter.
- Atomicity and memory order of the cuckoo cache's flags: erases are steps of their own.
- The floating-point choice of depth limit, hash count and filter size in the cuckoo cache and the bloom filter; they are parameters.
- `extra_count` of compact blocks is an integer; where the extra transactions clear more positions than they fill the source's unsigned counter wraps around.
- The scan of a compact block that does not end is modelled by running it for any given number of rounds.
- Bytes of short ids, prefilled transactions and compact sizes in compact-block messages.
- `CBloomFilter`, `CMerkleBlock` serialization, `CCloneChain`, locators and median times.
- BlockChain.Chain.SetTip: one class stands for CChain (offset zero) and CPartialChain.
- MerkleTree.PartialMerkleTree.constructor: an empty list of transactions is excluded; the source indexes it at zero, which has no defined result. Node positions do not wrap at 32 bits.
- MerkleProofs.AcceptedIsAuthentic: asks for a root that is not zero, since zero is also the sign of failure.
- Hexadecimal text and `getdouble` of 256-bit numbers.
- The packing of Golomb-Rice bits into bytes and the compact size in front of them: a filter is a number and bits of whole bytes. A shift by 64 gives zero.
- Block and wallet logic around filters, and Base58 with checksums.
