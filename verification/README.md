# Proofs about the KristaTech node

A Dafny model of the state machines and the arithmetic at the core of the KristaTech node, and proofs of what they
keep. `dafny verify dfyconfig.toml` checks all of it.

| files | part of the node |
|---|---|
| Coins | the stack of write-back coin caches over the coin database |
| AddrManModel, AddrMan, AddrManEffects, AddrManEvict, AddrManStream, AddrManLoad, AddrManCheck | the address manager: its tables as values and as an object, what each operation changes, when it evicts, its saved form, loading any stream, its own consistency check |
| Quorum, QuorumGuard | quorum certificates, election, and the guard against signing two blocks on one parent |
| CheckQueue | the parallel verification queue of one master and any number of workers |
| Cuckoo, CuckooInsert | the cuckoo cache of verified signatures, and when an insertion drops one |
| Adam, AdamSeed | masternode delegations and pings, the rolling seed, the fallback rotation |
| Limbs, Arith, Compact, Kernel | big integers on 32-bit limbs, compact targets, stake kernel targets and weights |
| Bech32, Bech32Poly, Bech32Strings, Base58 | the two address codecs, and the Bech32 checksum as a polynomial remainder |
| Chain, SkipList | the active chain, the skip list and the length of a walk over it |
| Bloom | the rolling bloom filter |
| Options, Sets | a missing value, ordered iteration over integer sets |

Where the source updates fields in place there is a class with the same fields, and each of its methods is proved
equal to a function on values; the theorems are about those functions. Runs are sequences of operations, or of atomic
steps of several threads, of any length. Hashes, signatures, clocks and random numbers are parameters.

## What the proofs show about the code

- `Flush` hands its block hash to the parent even when it is null, so a cache without a hash can move the parent's best
  block back (`Coins.FlushLosesBestBlock`); `Coins.FlushBest` says exactly when it does not.
- A flush erases the entries it hands over before the database commits, so a failed commit loses them from the cache too
  (`Coins.FailedFlushLoses`).
- `Add_` returns true for a routable address that was unknown, also when its slot is taken and the address is dropped
  again (`AddrManModel.SecondIsDropped`, `AddrManModel.AddUnknown`).
- `Clear` does not empty the queue of tried collisions, so loading a saved manager keeps the old queue
  (`AddrManStream.RoundTrip`).
- `Check_` looks up the address index with a default of 0, so it does not notice when the address of id 0 is missing; it
  does not compare ids with the id counter or look for stale index entries either (`AddrManCheck.CheckMisses`,
  `AddrManCheck.PassesIsInv`).
- The comment in src/llmq.h:85-87 says that the guard prevents two blocks of equal height from both reaching the
  threshold, and README.md:101 of the repository describes a guard per height and rotation slot. The code keeps one entry per parent
  and lets it be replaced after 12 s (same coordinator) or 30 s. The model follows the code:
  `QuorumGuard.OneCertificatePerWindow` is what holds, `QuorumGuard.DecisionIff` when exactly a guard signs, and
  `QuorumGuard.BothBlocksCertified` an instance of two certified blocks.
- The comment on the threshold in `Verify` speaks of 3 out of 5; the code asks for a majority of whatever members there are, at least 2
  unless the quorum has one member.
- A delegation that changed hands more than 16 times since a block is erased, not restored, when those changes are
  reverted (`Delegations.HandoverLimit`, `Delegations.UndoRestores`).
- `x *= x` on a big integer yields 0, because the operand is cleared before it is read (`Arith.BaseUint.Mul`).
- Division by zero throws after the dividend has been cleared (`Arith.BaseUint.Div`).
- Before height 2280 the weighted target wraps around, so more stake can mean a smaller target
  (`KernelModel.EarlyTargetWraps`, `KernelModel.EarlyStakesIff`).
- The comment in src/cuckoocache.h:394-398 says that an insertion first swaps at the first of the eight slots; the code
  takes the second (`CuckooInsert.InsertOutcome`).
- The epoch size of the cuckoo cache is 45 times the number of slots computed in 32 bits, which wraps from 2^27 slots on
  (`CuckooModel.EpochSizeWraps`, `CuckooModel.SetUpEpochIff`); the bound of `CuckooModel.EveryRun` holds for whatever
  size comes out.

## Model

| member | source | states |
|---|---|---|
| Coins.FetchKeeps | src/coins.cpp:40-56 | fetching through any number of layers changes no layer's meaning; the coin found is unspent exactly when the view has it |
| Coins.AddExact | src/coins.cpp:68-87 | a no-overwrite add neither throws nor breaks a FRESH promise if and only if the view has no unspent coin there |
| Coins.AddKeeps | src/coins.cpp:68-87 | a legal add keeps the cross-layer invariant and changes the plain map at that outpoint only; unspendable outputs change nothing |
| Coins.AddStores | src/coins.cpp:68-87 | a layer without an entry there gets a changed and FRESH one, unless the script starts with OP_RETURN or is over 10000 bytes |
| Coins.SpendKeeps | src/coins.cpp:99-113 | spending removes exactly that outpoint from the plain map, including the FRESH erase shortcut |
| Coins.UncacheKeeps | src/coins.cpp:215-222 | uncaching never changes the view |
| Coins.UncacheUndoesFetch | src/coins.cpp:215-222 | uncaching right after a fetch restores the layer; a changed or FRESH entry stays |
| Coins.SpendUndoesAdd | src/coins.cpp:68-113 | a coin added where the layer had no entry and then spent leaves no trace: FRESH makes the spend erase it |
| Coins.SpendUndoesFlushedAdd | src/coins.cpp:68-213 | neither does one that was flushed before it was spent, in the layer below once the spend is flushed too |
| Coins.FreshNeverMisapplied | src/coins.cpp:151-205 | FRESH implies that the parent view has no unspent coin, so the "FRESH flag misapplied" exception is unreachable |
| Coins.WriteThrowsIff | src/coins.cpp:151-205 | a batch write to a cache throws if and only if a changed and FRESH child entry meets an unspent one |
| Coins.MergeCoherent | src/coins.cpp:151-205 | merging a child keeps the parent coherent with its own parent |
| Coins.MergeMeaning | src/coins.cpp:151-205 | after a batch write the parent stands for the map the child stood for |
| Coins.FlushKeeps | src/coins.cpp:207-213 | a flush never throws, empties the cache, leaves the view as it was and makes the parent's view equal to it |
| Coins.FailedFlushLoses | src/coins.cpp:207-213 | after a flush that the database fails to commit the cache stands for what the database holds |
| Coins.CacheBestKeeps | src/coins.cpp:139-144 | reading the best block caches it in this layer and on the way, without changing it or any view |
| Coins.SetBestIs | src/coins.cpp:146-149 | setting the best block sets it for this layer and changes nothing else |
| Coins.FlushBest | src/coins.cpp:207-213 | the best block survives a flush if and only if the layer has its own hash, or the parent is the database, or the parent's hash is null or the same as below |
| Coins.FlushLosesBestBlock | src/coins.cpp:207-213 | a three-layer stack on which a flush moves the best block back |
| Coins.LayerKeeps | src/coins.cpp:40-222 | an operation at any layer keeps every layer sound and changes the layers' maps as it should |
| Coins.StepKeeps | src/coins.cpp:40-222 | every legal operation succeeds and matches the operation on plain maps |
| Coins.RunRefinesPlainMaps | src/coins.cpp:40-222 | no legal run over a stack of any height throws, and it equals the same run over one plain map per layer |
| Coins.CoinsViewDB.BatchWrite | src/txdb.cpp:78-102 | erases spent and writes unspent dirty coins and records the hash as one batch; a failed commit throws and changes nothing |
| Coins.CoinsViewCache.FetchCoin | src/coins.cpp:40-56 | the object's fetch is the fetch on the whole stack value, through all parents |
| Coins.CoinsViewCache.GetCoin | src/coins.cpp:58-66 | returns the entry found, which may be spent |
| Coins.CoinsViewCache.HaveCoin | src/coins.cpp:127-131 | true exactly when an unspent coin is found |
| Coins.CoinsViewCache.AddCoin | src/coins.cpp:68-87 | the add on the stack value, with its exception as an outcome |
| Coins.CoinsViewCache.SpendCoin | src/coins.cpp:99-113 | the spend on the stack value |
| Coins.CoinsViewCache.Uncache | src/coins.cpp:215-222 | the uncache on the stack value |
| Coins.CoinsViewCache.BatchWrite | src/coins.cpp:151-205 | the erasing loop merges all child entries, in any order, or stops on a misapplied flag |
| Coins.CoinsViewCache.Flush | src/coins.cpp:207-213 | the flush on the stack value; when the database fails to commit, this cache has lost its entries |
| Coins.CoinsViewCache.GetBestBlock | src/coins.cpp:139-144 | returns the first hash that is not null and caches it |
| AddrManModel.CreateKeeps | src/addrman.cpp:92-102 | a created entry is indexed, has its place in the random order and is in no table yet |
| AddrManModel.SwapKeeps | src/addrman.cpp:104-122 | swapping keeps random order and positions inverse |
| AddrManModel.DeleteKeeps | src/addrman.cpp:124-136 | deleting an id that no table holds keeps every clause of the consistency check |
| AddrManModel.ClearNew | src/addrman.cpp:138-151 | a cleared slot is empty, the rest of the new table is as before, and an entry disappears just with its last reference; the consistency check holds again |
| AddrManModel.EvictEffect | src/addrman.cpp:172-194 | a displaced tried entry returns to its own new slot with one reference, and only the entry whose sole reference was there is forgotten |
| AddrManModel.MakeTriedEffect | src/addrman.cpp:153-199 | the entry ends tried in its own slot; what it displaces becomes new again; at most one entry is forgotten |
| AddrManModel.MakeTried | src/addrman.cpp:153-199 | the move between tables restores the consistency check it breaks midway |
| AddrManModel.PromoteEffect | src/addrman.cpp:215-262 | promotion of an untried entry finds a new bucket for it and has the effect of the move |
| AddrManModel.GoodPromotes | src/addrman.cpp:201-263 | a known untried address is always found in some new bucket, so the bail-out is never taken, and it becomes tried unless it only records a collision |
| AddrManModel.PlaceEffect | src/addrman.cpp:314-335 | placing takes the slot exactly when it is free, terrible or doubly referenced, and otherwise changes nothing; a new entry that cannot be placed is forgotten again |
| AddrManModel.AddUnknown | src/addrman.cpp:265-336 | an unknown routable address is stored, with its source, services, time less the penalty and one reference, if and only if its slot can be taken; otherwise the book is as before although the result is true |
| AddrManModel.SecondIsDropped | src/addrman.cpp:265-336 | the second of two fresh addresses with one new slot is reported as new by a manager that then does not know it |
| AddrManModel.Add | src/addrman.cpp:265-336 | adding keeps the consistency check; the result is true exactly for routable unknown addresses; what is stored is in `AddUnknown` and `AddRefreshes` |
| AddrManModel.KnownByAddress | src/addrman.cpp:79-90 | the index finds exactly the addresses of the entries |
| AddrManModel.GetAddrResult | src/addrman.cpp:484-503 | addresses come from a prefix of the shuffled ids, at most the cap, all of them unless the cap was reached, and no entry twice |
| AddrManModel.Attempt | src/addrman.cpp:338-358 | recording an attempt keeps the consistency check; what it changes is in `AttemptNotes` |
| AddrManModel.Connected | src/addrman.cpp:505-523 | refreshing the time keeps the consistency check; what it changes is in `ConnectedNotes` |
| AddrManModel.SetServices | src/addrman.cpp:525-541 | changing services keeps the consistency check; what it changes is in `ServicesReplaced` |
| AddrManModel.Resolve | src/addrman.cpp:547-597 | resolving the whole queue of collisions keeps the consistency check, also when queued ids are gone |
| AddrManModel.EveryRunPasses | src/addrman.cpp:92-336 | after every run of the seven operations from an empty manager the structural and the time clauses of the consistency check hold |
| AddrManEffects.AddRefreshes | src/addrman.cpp:272-335 | a known address gets the union of the services and, if it is ahead by the interval and the penalty, the announced time less the penalty, not below 0; it gets another reference if and only if the announcement is news, it is untried with under eight references, the draw of one in 2^references hits and the slot by this source can be taken; else nothing changes |
| AddrManEffects.FactorIsPower | src/addrman.cpp:302-304 | the factor of the draw is two to the number of references |
| AddrManEffects.GoodNotes | src/addrman.cpp:201-263 | a good connection sets the success time, the try time and no failures; an untried entry whose tried slot is taken joins the queue, if asked to test first and the queue has under ten ids, and the tables stay; otherwise it is tried |
| AddrManEffects.AttemptNotes | src/addrman.cpp:338-358 | an attempt changes the try time of that entry only, and counts as a failure if and only if it may and none was counted since the last good connection of any peer |
| AddrManEffects.FailuresCountOnce | src/addrman.cpp:338-358 | any number of attempts since the last good connection counts as one failure |
| AddrManEffects.ConnectedNotes | src/addrman.cpp:505-523 | the time of that entry only is refreshed, if and only if it is over twenty minutes old |
| AddrManEffects.ServicesReplaced | src/addrman.cpp:525-541 | the services of that entry only are replaced |
| AddrManEffects.UnknownIsIgnored | src/addrman.cpp:201-541 | none of these touches the entries of a manager that does not know exactly this address and port |
| AddrManEffects.AddedAtHome | src/addrman.cpp:314-335 | an entry added to a free slot sits in the slot it would come back to from the tried table |
| AddrManEffects.RunLearns | src/addrman.cpp:201-336 | after every run, adding an unknown routable address to a free slot makes it known there, and a good connection then tries it if its tried slot is free |
| AddrManEffects.NotTerrible | src/addrman.cpp:37-56 | an entry tried in the last minute is not terrible, nor one of the last 30 days with under three failures |
| AddrManEffects.TerribleFor | src/addrman.cpp:37-56 | otherwise a bad time, three failures without a success, or ten with the last success over a week ago make it so |
| AddrManEffects.Forgiven | src/addrman.cpp:37-56 | a success in the last week, or under ten failures since one, make an entry of the last 30 days not terrible |
| AddrManEffects.GivenAway | src/addrman.cpp:486-488 | 23 percent of the entries, rounded down, and at most 2500, are given away |
| AddrManEffects.ShuffleDraws | src/addrman.cpp:492-497 | each turn draws one of the remaining ids and leaves those drawn before |
| AddrManEffects.ShuffleCanDraw | src/addrman.cpp:492-497 | any of the remaining ids can be drawn |
| AddrManEvict.GoodSpares | src/addrman.cpp:247-262 | a good connection puts an entry in place of the occupant of its tried slot only when told not to test first; otherwise every occupant stays |
| AddrManEvict.ResolveOneDecides | src/addrman.cpp:549-596 | a queued id replaces the occupant of a tried slot if and only if the slot is its own, it is known, valid and untried, and the occupant had no success in 4 h but an attempt in them over a minute ago; it stays queued exactly when the occupant is undecided |
| AddrManEvict.ResolveFromSpares | src/addrman.cpp:547-597 | whatever is queued, an occupant that does not give way is still in its slot afterwards, and no id joins the queue |
| AddrManEvict.ResolveSettles | src/addrman.cpp:547-597 | whoever is left in the queue was in it, is known and valid and waits for an occupant that was not decided on; everyone else is settled |
| AddrManEvict.LoneCollision | src/addrman.cpp:547-597 | a single queued entry is dropped if the occupant had a success in 4 h, stays if there is nothing to decide on, and otherwise ends tried in its slot, as it does when that is free |
| AddrManEvict.AddKeepsTried | src/addrman.cpp:265-336 | adding never touches the tried table |
| AddrManEvict.TriedStays | src/addrman.cpp:201-597 | in every run an entry keeps its tried slot until a moment at which it gives way to a queued one or a caller asks not to test first |
| AddrManCheck.InvPasses | src/addrman.cpp:407-481 | the invariant implies all conditions that Check_ tests |
| AddrManCheck.PassesIsInv | src/addrman.cpp:407-481 | a state has the invariant if and only if Check_ accepts it and three things hold that it does not look at |
| AddrManCheck.CheckMisses | src/addrman.cpp:407-481 | for each of the three a state that Check_ accepts without the invariant: entry 0 not indexed, a stale index entry, an id counter that is too low |
| AddrManCheck.CheckEntries | src/addrman.cpp:415-439 | the first loop accepts exactly the good entries and collects tried ids and reference counts |
| AddrManCheck.CheckEntry | src/addrman.cpp:416-438 | accepts exactly an entry with the right count, index, position and times |
| AddrManCheck.CheckTriedTable | src/addrman.cpp:446-458 | the tried loop accepts exactly the tables in which every tried id sits once, in its own slot |
| AddrManCheck.CheckNewTable | src/addrman.cpp:460-471 | the new loop accepts exactly the tables in which every id sits at its position, as often as its count says |
| AddrManCheck.Check_ | src/addrman.cpp:407-481 | finds an error if and only if one of the conditions fails |
| AddrManCheck.EveryRunIsAccepted | src/addrman.cpp:407-481 | whatever is done to a fresh manager, its slots lie in the tables and Check_ finds no error |
| AddrMan.AddrMan.constructor | src/addrman.h:466-488 | a cleared manager is the empty one |
| AddrMan.AddrMan.Create | src/addrman.cpp:92-102 | the object's creation is the one on values |
| AddrMan.AddrMan.SwapRandom | src/addrman.cpp:104-122 | object form of `SwapRandom`: two positions exchanged in the fields and in the entries |
| AddrMan.AddrMan.Delete | src/addrman.cpp:124-136 | object form of `Delete`; both assertions in the source hold |
| AddrMan.AddrMan.ClearNew | src/addrman.cpp:138-151 | as on values, on the table arrays |
| AddrMan.AddrMan.MakeTried | src/addrman.cpp:153-199 | as on values; the loop over all buckets drops every reference of the id |
| AddrMan.AddrMan.EvictFrom | src/addrman.cpp:172-194 | object form of `Evict`: the tried cell is empty, the displaced id sits in its new cell with one reference |
| AddrMan.AddrMan.Find | src/addrman.cpp:79-90 | finds the id of an address, or none |
| AddrMan.AddrMan.FindBucket | src/addrman.cpp:230-240 | returns a new bucket that holds the id at its position, starting anywhere, and none only if there is none |
| AddrMan.AddrMan.Good_ | src/addrman.cpp:201-263 | object form of `Good`, whatever bucket the search starts at |
| AddrMan.AddrMan.PlaceIn | src/addrman.cpp:314-335 | object form of `Place` on the bucket arrays |
| AddrMan.AddrMan.ChanceFactor | src/addrman.cpp:302-304 | two to the power of the reference count |
| AddrMan.AddrMan.Add_ | src/addrman.cpp:265-336 | object form of `Add`, with the random choice as a parameter |
| AddrMan.AddrMan.Attempt_ | src/addrman.cpp:338-358 | object form of `Attempt` |
| AddrMan.AddrMan.Connected_ | src/addrman.cpp:505-523 | object form of `Connected` |
| AddrMan.AddrMan.SetServices_ | src/addrman.cpp:525-541 | object form of `SetServices` |
| AddrMan.AddrMan.GetAddr_ | src/addrman.cpp:484-503 | object form of `GetAddr`: the shuffled order and the addresses collected |
| AddrMan.AddrMan.ResolveCollisions_ | src/addrman.cpp:547-597 | object form of `Resolve`, id by id in ascending order |
| AddrManStream.LoadNewIs | src/addrman.h:388-405 | loading the saved new entries gives exactly them, under consecutive ids |
| AddrManStream.LoadTriedIs | src/addrman.h:408-427 | every saved tried entry finds its slot free, so none is lost |
| AddrManStream.IndexStep | src/addrman.h:429-445 | the index saved for a slot restores the reference of that slot |
| AddrManStream.BucketsAre | src/addrman.h:429-445 | loading all buckets restores the new table and every reference count |
| AddrManStream.NothingPruned | src/addrman.h:447-457 | no loaded entry is left without a reference, so nothing is pruned |
| AddrManStream.RenamedIsBijection | src/addrman.h:317-463 | saving and loading renames ids one to one |
| AddrManStream.RoundTrip | src/addrman.h:317-463 | loading what was saved succeeds under the same key and restores entries, index, both tables, reference counts and counters up to that renaming and the memory-only fields; the collision queue of the loading object stays |
| AddrManStream.RestoredPasses | src/addrman.h:317-463 | a restored manager has the invariant again, time clauses included |
| AddrManStream.WriteEntries | src/addrman.h:331-350 | writes the chosen entries in ascending order of id and numbers them; the asserted bound on their number holds |
| AddrManStream.DumpHeader | src/addrman.h:317-331 | a saved manager starts with version 1, the key size 32, the key, both counts and 1024 buckets with bit 30 flipped |
| AddrManStream.ToggleIs | src/addrman.h:329-330 | flipping bit 30 of a count adds or takes 2^30, and twice gives it back |
| AddrManStream.WriteBucket | src/addrman.h:351-364 | writes the numbers of the ids in a bucket in order of position |
| AddrManStream.Serialize | src/addrman.h:317-365 | writes header, new entries, tried entries and buckets; both asserted bounds hold |
| AddrManStream.ReadEntries | src/addrman.h:388-405 | reads the new entries; places them by source when the saved buckets are of no use |
| AddrManStream.ReadTried | src/addrman.h:408-427 | reads the tried entries and counts those that collide |
| AddrManStream.ReadBuckets | src/addrman.h:429-445 | reads the buckets; ignores bad indexes, taken positions and full reference counts |
| AddrManStream.PruneLoop | src/addrman.h:447-457 | deletes the entries without a reference |
| AddrManStream.Unserialize | src/addrman.h:367-463 | the whole load, with its exceptions |
| AddrManLoad.AcceptedIsComplete | src/addrman.h:367-427 | a stream that is read to its end has as many records as its header says |
| AddrManLoad.LoadNewLoads | src/addrman.h:388-405 | after the first loop every record is an entry under its number; with an unusable table the first of each primary slot has its reference |
| AddrManLoad.LoadTriedLoads | src/addrman.h:408-427 | after the second loop the tried table holds the first record of each tried slot and the counter is right |
| AddrManLoad.LoadBucketsLoads | src/addrman.h:429-445 | whatever indexes a stream has, the buckets keep the consistency check and change no record |
| AddrManLoad.PruneLoads | src/addrman.h:447-457 | pruning deletes exactly the entries in no table and never fails an assertion |
| AddrManLoad.LoadedIsSound | src/addrman.h:367-463 | every stream of records with distinct addresses that is read to its end loads; the manager keeps exactly the records that found a slot, and has the invariant if and only if the count of tried entries is not negative |
| Quorum.ThresholdIsMajority | src/llmq.cpp:47-50 | the threshold is the least strict majority, for every size, but two signers at least where there are two members |
| Quorum.FindMember | src/llmq.cpp:63-71 | finds a member if and only if one has that outpoint, and returns the key of the first such member |
| Quorum.VerifyShare | src/llmq.cpp:58-98 | a share passes exactly when size, membership, pinned key and both signatures do, as `ShareIff` spells out |
| Quorum.KeyOfFirst | src/llmq.cpp:63-71 | there is a key if and only if some member has the outpoint, and it is that of the first |
| Quorum.ShareIff | src/llmq.cpp:58-98 | a share is good if and only if it has 1 to 512 bytes and the first member with its outpoint signed its BLS key, a pinned one if there is one, and that key signed the block |
| Quorum.SharesAreSigned | src/llmq.cpp:43-113 | every share of a valid certificate was signed by the member whose outpoint it carries |
| Quorum.Verify | src/llmq.cpp:43-113 | a certificate is accepted if and only if it has at most 32 good shares of distinct members, a majority of them, and a good aggregate |
| Quorum.CertificateIff | src/llmq.cpp:43-113 | acceptance spelled out: 1 to 32 shares of distinct outpoints, as many as the threshold, each good as `ShareIff` says, and the aggregate over the BLS keys and signatures of exactly these shares |
| Quorum.SignersAreMajority | src/llmq.cpp:43-113 | the signers of a valid certificate are distinct members and more than half of the quorum |
| Quorum.CertificatesIntersect | src/llmq.cpp:43-113 | two valid certificates of one quorum share a signer |
| Quorum.EnabledMembers | src/llmq.cpp:183-200 | the enabled members in ascending key order, one per outpoint, as `CandidatesAre` characterises them |
| Quorum.CandidatesDistinct | src/llmq.cpp:183-219 | candidates have distinct outpoints, also those of the fallback pool |
| Quorum.CandidatesAre | src/llmq.cpp:183-219 | with five eligible outpoints, and not on the regression-test network, the candidates are the smallest eligible key of every one of them, and no other; otherwise they are the pool, each key under the outpoint of its hash and position |
| Quorum.ElectQuorumMembers | src/llmq.cpp:178-280 | elects the candidates with the lowest scores |
| Quorum.ElectedAreLowest | src/llmq.cpp:255-274 | as many as asked for or available; nobody left out scores lower than an elected member |
| Quorum.ElectedDistinct | src/llmq.cpp:255-274 | elected outpoints are distinct |
| Quorum.ElectionAgrees | src/llmq.cpp:255-274 | nodes with the same candidates and distinct scores elect the same quorum, whatever order they list them in |
| QuorumGuard.SigningGuard.EraseStale | src/llmq.cpp:413-418 | removes exactly the entries older than an hour |
| QuorumGuard.SigningGuard.AllowQuorumSignature | src/llmq.cpp:408-439 | decision and new table of the guard |
| QuorumGuard.RunSpaced | src/llmq.cpp:408-439 | in every run with a non-decreasing clock the entries recorded for one parent are at least 12 s apart, and 30 s when their coordinators differ, despite pruning |
| QuorumGuard.DecisionIff | src/llmq.cpp:408-439 | after every run with a non-decreasing clock the guard signs if and only if the last entry ever recorded for the parent is for the same block or a full window old, so pruning never changes a decision |
| QuorumGuard.OthersStay | src/llmq.cpp:412-419 | a request changes no entry of another parent, but with more than a thousand entries it drops those over an hour old |
| QuorumGuard.ApprovedIsLogged | src/llmq.cpp:408-439 | every approval, also a repeated one, rests on a recorded entry for that parent and block |
| QuorumGuard.TwoCertificatesAreApart | src/llmq.cpp:43-113 | two valid certificates for different blocks on one parent have a common signer whose guard recorded both at that distance |
| QuorumGuard.OneCertificatePerWindow | src/llmq.h:85-87 | at most one block per parent is certified while each member's entries for it span under 12 s |
| QuorumGuard.CompetingCoordinators | src/llmq.h:85-92 | with competing coordinators that window is 30 s |
| QuorumGuard.BothReleasedIff | src/llmq.cpp:420-438 | so a fresh guard asked for two blocks on one parent releases both if and only if the requests are a full window apart |
| QuorumGuard.SecondCertificatePossible | src/llmq.h:85-87 | after the window a second block on the same parent can be certified by honest members |
| QuorumGuard.BothBlocksCertified | src/llmq.cpp:43-113 | a quorum of five in which three members certify two blocks on one parent, asked 12 s apart |
| CheckQueueModel.BatchFits | src/checkqueue.h:110-111 | a batch takes at least one and at most all queued checks |
| CheckQueueModel.BatchIsShare | src/checkqueue.h:110-111 | a batch is the largest within the limit that is at most the share of each thread and one more, and never empty |
| CheckQueueModel.DecidedIs | src/checkqueue.h:93-121 | a thread returns only as master with nothing queued or unfinished, waits when nothing is queued, and otherwise takes a batch off the back, last check first |
| CheckQueueModel.AcquireKeeps | src/checkqueue.h:80-90 | clean-up or registration of a thread keeps the invariant; the last worker to finish notifies a waiting master |
| CheckQueueModel.ReleaseKeeps | src/checkqueue.h:93-121 | returning, waiting or taking a batch keeps the invariant |
| CheckQueueModel.StepKeeps | src/checkqueue.h:70-159 | every step of every thread keeps: nTodo is the queue plus unfinished batches, nIdle and nTotal are exact, every check is in one place, the verdict so far is that of all added checks |
| CheckQueueModel.Reached | src/checkqueue.h:70-159 | every state of every run has the invariant |
| CheckQueueModel.ReachedNext | src/checkqueue.h:70-159 | a run begins with all threads outside and nothing queued, and goes on with any step that is enabled |
| CheckQueueModel.WaitReturnsConjunction | src/checkqueue.h:140-143 | in every interleaving `Wait` returns the conjunction of all checks added since it last returned, each looked at once, with nothing queued or in hand |
| CheckQueueModel.WaitingMasterIsServed | src/checkqueue.h:84-87 | a waiting master has a pending notification or a busy worker |
| CheckQueueModel.IdleBetweenRounds | src/checkqueue.h:165-169 | between rounds the queue is idle, so the control object's assertion holds |
| CheckQueueModel.StepMeasure | src/checkqueue.h:70-127 | no step but adding raises a measure of the work left, and only a fruitless wake-up leaves it |
| CheckQueueModel.WaitCanReturn | src/checkqueue.h:70-127 | from every state with the master in `Wait`, steps that need no spurious wake-up lead to its return |
| CheckQueue.CheckQueue.Add | src/checkqueue.h:146-158 | appends the checks and counts them |
| CheckQueue.CheckQueue.CleanUp | src/checkqueue.h:81-90 | the head of the critical section and whether it notifies the master |
| CheckQueue.CheckQueue.Decide | src/checkqueue.h:93-121 | the rest of the critical section: result, wait or batch in reverse order |
| CheckQueue.CheckQueue.EndWait | src/checkqueue.h:104-104 | a thread that wakes up is no longer counted as idle |
| CheckQueue.ExecuteBatch | src/checkqueue.h:123-125 | evaluates until the first failure; the result is the conjunction |
| CuckooModel.LiveUnique | src/cuckoocache.h:370-455 | an element is live at most once |
| CuckooModel.LiveIsFound | src/cuckoocache.h:445-455 | `contains` finds every live element |
| CuckooModel.EpochCheckMeaning | src/cuckoocache.h:266-298 | an epoch change keeps every live element of the current epoch and gives up only the old epoch; otherwise nothing changes |
| CuckooModel.DisplaceConserves | src/cuckoocache.h:384-417 | the displacement loop conserves the live elements and the one in hand, but for at most one dropped at the end |
| CuckooModel.InsertConserves | src/cuckoocache.h:370-418 | apart from aging, `insert` yields the old live elements plus the new or revived one, minus at most one |
| CuckooInsert.DisplaceOutcome | src/cuckoocache.h:384-417 | the loop goes along a chain: each entry in hand has none of its eight slots free, takes the way after the one just left and is exchanged for what is there; it drops an entry if and only if the chain is as long as the depth allows, namely the one in hand then, and otherwise puts it in the first of its free slots |
| CuckooInsert.InsertOutcome | src/cuckoocache.h:370-418 | an element in one of its slots is revived in the first of them and nothing is dropped; otherwise the chain starts with the new, current element and its second slot |
| CuckooInsert.FreeSlotStores | src/cuckoocache.h:370-418 | while one of its slots is free after the epoch check, or holds it, an inserted element is live, current and found, and nothing is dropped |
| CuckooInsert.RunStores | src/cuckoocache.h:266-418 | so in every run after setting up, while one of its slots is free an inserted element is live, current and found |
| CuckooInsert.FirstIsStored | src/cuckoocache.h:317-418 | the first element inserted after setting up is found |
| CuckooInsert.ContainsIff | src/cuckoocache.h:445-455 | `contains` finds an element if and only if one of its eight slots holds it |
| CuckooInsert.SetUpSize | src/cuckoocache.h:317-331 | the largest power of two up to the request, at least two, of slots, all of them free, and as many displacements as its exponent |
| CuckooInsert.Countdown | src/cuckoocache.h:266-298 | the countdown falls by one until it is over; then the next scan is due when the epoch could be full, after a sixteenth of it at least, or after a whole epoch when it was full |
| CuckooModel.EraseMeaning | src/cuckoocache.h:445-455 | erasing removes that element from the live ones and nothing else |
| CuckooModel.ErasedIsStillFound | src/cuckoocache.h:423-434 | erasing changes the answer of `contains` for no element, so an erased element is found until its slot is needed |
| CuckooModel.EpochCheckBound | src/cuckoocache.h:266-298 | after an epoch check there is room for one more current element under the bound |
| CuckooModel.InsertBound | src/cuckoocache.h:370-418 | insertion keeps current elements plus countdown within the epoch size and its slack |
| CuckooModel.SetUpSound | src/cuckoocache.h:317-331 | a cache that was set up is empty and sound |
| CuckooModel.EpochSizeIff | src/cuckoocache.h:326-327 | the epoch size is 45 percent of the slots, and at least 1, if and only if 45 times the slots is below 2^32 |
| CuckooModel.SetUpEpochIff | src/cuckoocache.h:317-331 | a cache is set up with such epochs if and only if fewer than 2^27 slots are requested |
| CuckooModel.EpochSizeWraps | src/cuckoocache.h:326-327 | a request for 2^27 slots gets epochs of 17448304 elements where 45 percent are 60397977 |
| CuckooModel.EveryRun | src/cuckoocache.h:266-455 | in every run live elements are found and unique, and those of the current epoch never exceed epoch_size + max(1, epoch_size/16) |
| Cuckoo.CuckooCache.constructor | src/cuckoocache.h:317-331 | the set-up arrays and counters |
| Cuckoo.CuckooCache.ComputeHashes | src/cuckoocache.h:220-230 | eight slots, each within the table |
| Cuckoo.CuckooCache.CountCurrent | src/cuckoocache.h:274-277 | the number of live elements of the current epoch |
| Cuckoo.CuckooCache.EpochCheck | src/cuckoocache.h:266-298 | countdown, scan and aging on the arrays |
| Cuckoo.CuckooCache.AgeAll | src/cuckoocache.h:283-287 | one pass ages all slots |
| Cuckoo.CuckooCache.DisplaceOnce | src/cuckoocache.h:385-416 | one round: a free slot is taken or a slot is swapped, the way after the last one |
| Cuckoo.CuckooCache.Displace | src/cuckoocache.h:384-417 | the displacement loop up to the depth limit, whose outcome `CuckooInsert.DisplaceOutcome` describes |
| Cuckoo.CuckooCache.Insert | src/cuckoocache.h:370-418 | the whole insertion, and what it dropped, as `CuckooInsert.InsertOutcome` describes |
| Cuckoo.CuckooCache.ContainsElement | src/cuckoocache.h:445-455 | the search and the optional erase |
| Delegations.UndoRestoresStack | src/adam.cpp:44-104 | without a depth limit, undoing records in reverse order gives the stack back; only a record at the first height itself can take the top entry with it |
| Delegations.RecordShows | src/adam.cpp:44-71 | a record keeps the slot showing the topmost entries of that stack, at most 17 |
| Delegations.RevertShows | src/adam.cpp:73-104 | a revert does too, until what is shown runs out |
| Delegations.RecordWellFormed | src/adam.cpp:44-71 | a record keeps both maps in step, the history capped and neighbouring keys different |
| Delegations.RevertWellFormed | src/adam.cpp:73-104 | a revert keeps that too |
| Delegations.UndoOneIff | src/adam.cpp:44-104 | one record and its revert restore key and first height if and only if there was no delegation, the key changed, or the height is above the first height |
| Delegations.UndoRestores | src/adam.cpp:44-104 | for every run at non-decreasing heights above the first height, the reverse reverts restore key and first height if and only if there was none or the key changed at most 16 times; the history left is the latest part of the old one |
| Delegations.HandoverLimit | src/adam.cpp:44-104 | a delegation handed over n times and then reverted comes back for n up to 16 and is gone for every larger n |
| Delegations.LatestIsSuffix | src/adam.cpp:44-71 | what remains of a history is its end |
| Pings.RegisterSound | src/adam.cpp:335-358 | a ping leaves one key per collateral, and the last height is the largest stored one |
| Pings.RegisterExact | src/adam.cpp:335-358 | a ping drops just the other keys on its collateral; its key keeps all heights, but only those from 5760 below on once there are more than 64; every other key stays as it was |
| Pings.RegisterCovers | src/adam.cpp:345-356 | pruning drops only heights more than 5760 below the largest |
| Pings.QueriesIgnorePruning | src/adam.cpp:296-361 | in every run of pings, queries with a window of at most 2880 at heights within 2880 of the largest answer as the full history since the last eviction |
| Adam.AdamRegistry.RecordCollateralDelegationWithHistory | src/adam.cpp:44-71 | the three maps change at that outpoint as the record says, and nowhere else |
| Adam.AdamRegistry.RevertOnChainCollateralDelegation | src/adam.cpp:73-104 | likewise for the revert, and which key it restored |
| Adam.AdamRegistry.EvictOthers | src/adam.cpp:336-344 | drops exactly the other keys on the collateral |
| Adam.AdamRegistry.PruneHeights | src/adam.cpp:347-356 | erasing from the bottom leaves exactly the heights from the cutoff on |
| Adam.AdamRegistry.RegisterHeight | src/adam.cpp:335-358 | the three maps after a registration: others on the collateral gone, height added and pruned, last height the largest |
| Adam.AdamRegistry.RegisterOnChainMasternodePing | src/adam.cpp:322-361 | an unauthorised ping changes nothing; an authorised one records its delegation and registers |
| Adam.AdamRegistry.LatestUpTo | src/adam.cpp:300-304 | the latest stored height up to the query height |
| Adam.AdamRegistry.IsMasternodeActiveAtHeight | src/adam.cpp:296-320 | true exactly for a valid key when some stored height, or the last height, lies in the window |
| AdamSeed.SeedMemo.FindBase | src/adam.cpp:1115-1139 | walks back to the first block whose seed is at hand |
| AdamSeed.SeedMemo.GetAdamSeed | src/adam.cpp:1106-1175 | the memo never changes a seed: a result is the seed computed from scratch, and there is one exactly when the walk meets a base and only readable blocks |
| AdamSeed.SeedMixes | src/adam.cpp:1106-1175 | the proofs of the active blocks above a block with a seed are mixed in one after the other; a block before ADAM has its own hash as seed |
| AdamSeed.FirstBegins | src/adam.cpp:1696-1707 | there is a fallback coordinator if and only if 45 s have passed and there is a candidate; the first in rank begins |
| AdamSeed.TurnsRotate | src/adam.cpp:1696-1707 | the coordinator is the one at the index, and each 30 s slice passes the turn to the next in rank, cyclically |
| AdamSeed.PreviousHadTheTurn | src/adam.cpp:1708-1713 | the coordinator of the slice before is accepted too in the first 5 s of every slice but the first, and only then |
| ArithModel.LeftValue | src/arith_uint256.cpp:31-45 | limbs shifted left are the value times a power of two, modulo the width |
| ArithModel.RightValue | src/arith_uint256.cpp:48-62 | limbs shifted right are the floor quotient |
| Arith.BaseUint.constructor | src/arith_uint256.h:57-63 | from a 64-bit number |
| Arith.BaseUint.Assign | src/arith_uint256.h:95-102 | takes over a 64-bit number |
| Arith.BaseUint.GetLow64 | src/arith_uint256.h:282-286 | the value modulo 2^64 |
| Arith.BaseUint.Add | src/arith_uint256.h:142-152 | addition modulo the width, also of a number to itself |
| Arith.BaseUint.Complement | src/arith_uint256.h:76-82 | all ones minus the value |
| Arith.BaseUint.Increment | src/arith_uint256.h:180-187 | plus one, modulo the width |
| Arith.BaseUint.Negated | src/arith_uint256.h:84-91 | the two's complement |
| Arith.BaseUint.Sub | src/arith_uint256.h:154-158 | subtraction modulo the width, also of a number from itself |
| Arith.BaseUint.MulSmall | src/arith_uint256.cpp:65-74 | multiplication by a 32-bit number; no 64-bit intermediate overflows |
| Arith.BaseUint.AddProduct | src/arith_uint256.cpp:81-88 | one row of the long multiplication |
| Arith.BaseUint.Mul | src/arith_uint256.cpp:77-90 | multiplication modulo the width; a number multiplied by itself in place becomes 0 |
| Arith.BaseUint.ShiftLeft | src/arith_uint256.cpp:31-45 | multiplication by a power of two modulo the width, for every shift |
| Arith.BaseUint.ShiftRight | src/arith_uint256.cpp:48-62 | floor division by a power of two, for every shift |
| Arith.BaseUint.CompareTo | src/arith_uint256.cpp:119-128 | the order of the values |
| Arith.BaseUint.Bits | src/arith_uint256.cpp:216-228 | the number of bits of the value |
| Arith.BaseUint.SetBit | src/arith_uint256.cpp:109-109 | sets a bit of the quotient that was clear |
| Arith.BaseUint.Div | src/arith_uint256.cpp:93-116 | the exact floor quotient for every non-zero divisor; division by zero fails with this number already cleared |
| CompactModel.OverflowIff | src/arith_uint256.cpp:275-293 | the overflow flag is set if and only if mantissa * 256^(exponent - 3) does not fit in 256 bits; otherwise the value is exactly that |
| CompactModel.RoundTrip | src/arith_uint256.cpp:275-316 | expanding the compact form gives the number with only its low bytes cleared, its sign unless zero, and no overflow |
| CompactModel.LostIs | src/arith_uint256.cpp:295-316 | nothing is lost below 2^23, and above it as many bytes as leave 16 to 23 bits |
| CompactModel.FixedPoint | src/arith_uint256.cpp:275-316 | the compact form does not change when that number is compacted again |
| Compact.SetCompact | src/arith_uint256.cpp:275-293 | the shifts on limbs yield the value and both flags that `OverflowIff` characterises |
| Compact.LeadingBytes | src/arith_uint256.cpp:297-304 | the three leading bytes of the number, however short it is |
| Compact.GetCompact | src/arith_uint256.cpp:295-316 | the shifts on limbs yield the compact form of the round trip |
| KernelModel.DivisionTest | src/kernel.cpp:75-75 | the division test fires exactly when the product exceeds the largest target |
| KernelModel.SaturatedTarget | src/kernel.cpp:73-79 | from height 2280 the weighted target is min(2^256 - 1, target * (stake / 100)) |
| KernelModel.LargerStakePasses | src/kernel.cpp:67-100 | a kernel that passes at one stake passes at every larger one |
| KernelModel.EarlyTarget | src/kernel.cpp:80-82 | before that height it is the product modulo 2^256 |
| KernelModel.EarlyTargetIff | src/kernel.cpp:80-82 | so there it is the product if and only if that fits |
| KernelModel.EarlyTargetWraps | src/kernel.cpp:80-82 | there compact target 0x21008000, which expands to 2^255, lets a stake of 100 pass with every hash below 2^255 and a stake of 200 with none |
| KernelModel.EarlyStakesIff | src/kernel.cpp:80-82 | there larger stakes never lose, up to a given one, if and only if the target times its weight is below 2^256 |
| KernelModel.BurnWeightDecays | src/kernel.cpp:519-538 | past all burns their weight only decays with height and is gone after the decay period |
| KernelModel.BurnWeightBound | src/kernel.cpp:519-538 | burn weight is at most five times the amount burnt |
| KernelModel.WeightBounds | src/kernel.cpp:540-631 | the weight is at least the amount, at most 2x for masternodes and 3x for locks, and the amount itself for plain stake; a burn adds at most five times what was burnt |
| KernelModel.ClassIs | src/kernel.cpp:540-631 | a masternode collateral goes before a lock that still holds, that before burns that still weigh, and these before plain stake; before the upgrade all stake is plain |
| KernelModel.MasternodeWeight | src/kernel.cpp:566-571 | the bonus of a masternode is the amount in proportion to its uptime, rounded down, and exactly the amount from the limit on |
| KernelModel.LockWeight | src/kernel.cpp:599-612 | the bonus of a lock is twice the amount in proportion to the blocks left out of 50000, rounded down, and exactly twice the amount from there on |
| KernelModel.BurnWeightIs | src/kernel.cpp:519-538 | burn weight is the sum, over the burns within the decay period, of five times the amount in proportion to the blocks left, rounded down |
| KernelModel.FreshBurn | src/kernel.cpp:519-538 | a burn weighs exactly five times its amount at its own height |
| KernelModel.BurnsAdd | src/kernel.cpp:614-630 | burns add their weight to the amount, and plain stake weighs its amount |
| KernelModel.FirstHeightIs | src/kernel.cpp:553-565 | a masternode counts from the least of its stored pings and the positive height of its unspent collateral, or the current height without either |
| KernelModel.MasternodeWeightGrows | src/kernel.cpp:566-571 | a masternode weighs no less at a later height, counted from the same first height |
| KernelModel.CollateralWeightGrows | src/kernel.cpp:553-571 | the first height is that of the unspent collateral while no ping is older, so the weight never falls whatever pings are added or pruned |
| KernelModel.LockWeightDecays | src/kernel.cpp:599-612 | an absolute lock weighs less the closer its end |
| Kernel.Exceeds | src/kernel.cpp:75-75 | on limbs, true exactly when the weight is positive and the target exceeds the quotient |
| Kernel.CheckKernelHash | src/kernel.cpp:67-100 | the test on limbs passes exactly when the hash is below the weighted target |
| Kernel.GetActiveBurnWeight | src/kernel.cpp:519-538 | the loop computes the sum over all burns whose decay and bound are proved |
| Bech32Model.StepLinear | src/bech32.cpp:84-95 | a step of the checksum is linear under exclusive or |
| Bech32Model.StepInjective | src/bech32.cpp:84-95 | a step is injective on 30-bit states |
| Bech32Model.LastSix | src/bech32.cpp:138-149 | six last symbols change the remainder by just their packed value |
| Bech32Model.ChecksumIff | src/bech32.cpp:129-149 | six symbols make the whole verify under an encoding if and only if they are its checksum |
| Bech32Model.SubstitutionDetected | src/bech32.cpp:129-135 | replacing one symbol never verifies under the same encoding |
| Bech32Model.BurstDetected | src/bech32.cpp:129-135 | no change within six consecutive symbols verifies under the same encoding |
| Bech32Model.DecodeEncode | src/bech32.cpp:157-204 | decoding an encoded string gives back encoding, prefix and data, for every good lower-case prefix and 5-bit data within 1023 characters |
| Bech32Model.EncodeDecode | src/bech32.cpp:157-204 | encoding what was decoded gives the string in lower case |
| Bech32Model.ReplacementDetected | src/bech32.cpp:173-204 | replacing one data character by one of another symbol never yields a string valid under the same encoding |
| Bech32Model.BurstReplacementDetected | src/bech32.cpp:173-204 | replacing data characters within six consecutive ones by others of the alphabet, not all of the same symbols, never yields a string valid under the same encoding |
| Bech32Poly.PolyModIsRemainder | src/bech32.cpp:41-98 | the groups of the checksum state are the remainder over GF(32) of the symbols, with the implicit 1 in front, by x^6 + {29}x^5 + {22}x^4 + {20}x^3 + {21}x^2 + {29}x + {18} |
| Bech32Poly.StepDivides | src/bech32.cpp:64-95 | one step takes the leading group times the generator off the shifted polynomial |
| Bech32Poly.RemainderUnique | src/bech32.cpp:49-52 | a polynomial has one quotient and one remainder by the generator |
| Bech32Poly.MulExample | src/bech32.cpp:57-62 | in that field {5} * {26} = {9} |
| Bech32Strings.ExpansionIs | src/bech32.cpp:107-119 | a prefix of bytes expands to the high three bits of each, a zero and the low five bits of each: 32 times the one plus the other is the byte |
| Bech32Strings.VerifiedIff | src/bech32.cpp:129-135 | prefix and symbols verify under an encoding if and only if their polynomial leaves its residue, 1 or 0x2bc830a3 in groups, when divided by the generator |
| Bech32Strings.CharsetIs | src/bech32.cpp:17-17 | the characters of the symbols in order |
| Bech32Strings.EncodedSpells | src/bech32.cpp:157-170 | an encoding is the prefix, the separator, the characters of the symbols and six more; it is empty if the encoding is invalid or a symbol does not fit in five bits |
| Bech32Strings.DecodeIgnoresCase | src/bech32.cpp:173-204 | a string not of mixed case decodes as in lower case |
| Bech32Strings.DecodeIff | src/bech32.cpp:173-204 | a string decodes to given parts if and only if it is printable, not of mixed case, has at most 1023 characters and in lower case encodes them |
| Bech32Strings.ShortestStrings | src/test/bech32_tests.cpp:31-106 | the prefix "a" without data gives "a12uel5l", and "a1lqfn3a" in Bech32m |
| Bech32.PolyModLoop | src/bech32.cpp:41-98 | the loop with its five conditional additions computes the linear fold |
| Bech32.Expand | src/bech32.cpp:107-119 | computes the prefix expansion that `ExpansionIs` describes and the checksum covers |
| Bech32.CreateChecksum | src/bech32.cpp:138-149 | computes the one checksum that `ChecksumIff` names, under the polynomial of `VerifiedIff` |
| Bech32.Encode | src/bech32.cpp:157-170 | returns the string that `EncodedSpells` describes, for which both round trips hold; empty for an invalid encoding or symbol |
| Bech32.CheckCase | src/bech32.cpp:174-181 | accepts exactly printable strings not of mixed case |
| Bech32.DecodeString | src/bech32.cpp:173-204 | returns the result that `DecodeIff` characterises, and an invalid one for all other strings |
| Radix.DigitsUnique | src/base58.cpp:92-130 | a digit string is its leading zeros and the digits of its value |
| Radix.MultiplyAdd | src/base58.cpp:48-57 | the buffer loop multiplies and adds in place, and its carry ends at 0 |
| Base58Model.EncodeBufferFits | src/base58.cpp:101-103 | 138/100 digits for each byte, plus one, hold every byte string of that length |
| Base58Model.DecodeBufferFits | src/base58.cpp:39-41 | 733/1000 bytes for each digit, plus one, hold every digit string of that length |
| Base58Model.DecodeEncode | src/base58.cpp:27-130 | decoding an encoded byte string gives it back, leading zero bytes included |
| Base58Model.EncodeDecode | src/base58.cpp:27-130 | encoding a decoded string gives the string without the spaces around it |
| Base58Model.AlphabetIs | src/base58.cpp:25-25 | the characters of the digits in order |
| Base58Model.EncodedMeans | src/base58.cpp:92-130 | the string writes the number of its bytes in base 58, after one first character for each leading zero byte |
| Base58Model.DecodeIff | src/base58.cpp:27-75 | a string decodes to given bytes if and only if it is their encoding with any spaces around |
| Base58.ConvertDigits | src/base58.cpp:101-122 | the conversion through the buffer yields the digits of the number |
| Base58.EncodeBase58 | src/base58.cpp:92-130 | returns the string of `Encoded`, for which both round trips hold |
| Base58.ReadWord | src/base58.cpp:39-59 | reads and converts character by character; the carry ends at 0 after each one, also before a character outside the alphabet, and the word is accepted if and only if there is none |
| Base58.DecodeBase58 | src/base58.cpp:27-75 | returns the bytes of `Decoded`, for which both round trips hold, and fails on exactly the other strings |
| ChainModel.GetSkipHeight | src/main.cpp:4635-4645 | a skip always goes to a strictly lower height |
| ChainModel.GetAncestor | src/main.cpp:4647-4668 | the skip-list walk finds the ancestor that the walk over predecessors finds, in the counted number of steps |
| ChainModel.WalkPath | src/main.cpp:4647-4668 | that walk is a path over predecessors and skips from the block to the ancestor, of as many steps as counted |
| SkipList.WalkIsShort | src/main.cpp:4635-4668 | the walk back from any height below 2^k, to any height, takes at most k * (k + 3) / 2 steps |
| ChainModel.BuildSkip | src/main.cpp:4675-4679 | a new entry on a well-built one is well built |
| ChainModel.EarlyExit | src/chain.cpp:25-28 | where a block of the new ancestry is in place, everything below it is too |
| ChainModel.ContainsIff | src/chain.h:443-447 | a chain contains exactly the ancestors of its tip |
| ChainModel.LocatorBlocks | src/chain.cpp:32-59 | a locator lists the ancestors at its heights |
| ChainModel.LocatorHeights | src/chain.cpp:32-59 | those heights fall strictly from the start to 0 |
| ChainModel.LocatorGaps | src/chain.cpp:32-59 | each height is the one before less the gap, not below 0; the gap is 1 for the first eleven and doubles from there on |
| ChainModel.LocatorIsShort | src/chain.cpp:32-59 | a locator below height 2^k has at most k + 11 entries |
| Chain.Chain.Tip | src/chain.h:401-426 | the tip is what the atomic pointer shows |
| Chain.Chain.StakeTip | src/chain.h:413-426 | the highest proof-of-stake block of the chain, or the genesis block when there is none |
| Chain.Chain.SetTip | src/chain.cpp:16-30 | afterwards the vector holds the tip's ancestor at every height, although the loop stops at the first match |
| Chain.Chain.FindFork | src/chain.cpp:61-70 | the highest block that is both in the chain and an ancestor of the argument, or none if there is none |
| Chain.Chain.GetLocator | src/chain.cpp:32-59 | the locator from a block or from the tip |
| BloomModel.InsertKeeps | src/bloom.cpp:63-104 | an inserted key is reported and no earlier one is lost |
| BloomModel.UpdateKeepsAnswers | src/bloom.cpp:237-247 | the full and empty flags change no answer, if and only if there is a hash function or a bit set |
| BloomModel.RollTracks | src/bloom.cpp:262-274 | each insertion keeps count of how many latest keys each of the two filters must hold |
| BloomModel.LastElementsPresent | src/bloom.cpp:249-288 | after every sequence of insertions each of the last nElements keys is reported, across all clears and wraps |
| BloomModel.InsertSets | src/bloom.cpp:63-73 | insertion sets just the bits that the hashes of the key give |
| BloomModel.ContainsIff | src/bloom.cpp:63-104 | a filter that was blank reports a key if and only if some key was inserted and each bit of the key is one of theirs |
| BloomModel.OldKeysForgotten | src/bloom.cpp:249-288 | after n insertions the pair answers as one blank filter that took just the last nElements + (n mod nElements) keys; older ones no longer count |
| Bloom.BloomFilter.UpdateEmptyFull | src/bloom.cpp:237-247 | full if and only if all bits are set, empty if and only if none is; the bits stay |
| Bloom.BloomFilter.Insert | src/bloom.cpp:63-73 | sets the bits of all hash functions and no others; a full filter stays as it is |
| Bloom.BloomFilter.ContainsKey | src/bloom.cpp:89-104 | true exactly when the filter is marked full, or is not marked empty and has all bits of the key set |
| Bloom.BloomFilter.Clear | src/bloom.cpp:120-125 | no bit set, and the filter marked empty |
| Bloom.BloomFilter.Reset | src/bloom.cpp:127-131 | no bit set, with a new tweak |
| Bloom.RollingBloomFilter.constructor | src/bloom.cpp:249-260 | two empty filters under one tweak, ready for the guarantee on the last keys |
| Bloom.RollingBloomFilter.Insert | src/bloom.cpp:262-274 | the pair rolls as `RollTracks` needs: one filter cleared at each half, the key in both |
| Bloom.RollingBloomFilter.ContainsKey | src/bloom.cpp:282-288 | asks the filter that holds the last keys |
| Bloom.RollingBloomFilter.Reset | src/bloom.cpp:296-302 | both filters cleared under one new tweak |

## Left out

- Coins: memory accounting, `AccessCoin` and the transaction helpers.
- Coins.CoinsViewCache.BatchWrite: the parent after a misapplied flag stopped the loop is not described; `Coins.FreshNeverMisapplied` shows that no legal run gets there.
- AddrManModel.GetAddrResult: the shuffle is any sequence of random numbers; nothing is said about their distribution.
- AddrManModel.Add: the clock and the random number of the test before another reference are parameters.
- AddrManStream.Unserialize: a stream with a negative number of new entries counts as an exception; the object's state after an exception is not modelled.
- AddrManLoad.LoadedIsSound: says nothing about a stream with two records of one address.
- AddrManStream.Serialize: works on the value of a manager, not on its arrays; so do the loops of `Unserialize` and `Check_`.
- AddrManCheck.Check_: gives a verdict, not the number of the first error, and does not model that the lookup inserts the default it returns.
- Selection of addresses by chance (`Select_`, `SelectTriedCollision_`, `GetChance`): random search and floating point.
- Quorum: BLS, ECDSA and hashing are parameters; the seed choice, `RunDKG` and `AggregateBLSSignatures` are not modelled.
- Quorum.ElectQuorumMembers: the sort is an insertion sort with the contract of a library sort, so members of equal score come in any order.
- QuorumGuard.TwoCertificatesAreApart: that a share exists only after the guard approved is the hypothesis; forged shares are outside.
- CheckQueueModel.WaitReturnsConjunction: workers may wake at any time, so their own notifications are not tracked; `fQuit` is never set in the source and is left out; steps are sequentially consistent.
- CuckooModel.SetUpSound: takes the exact floor of the logarithm; the source rounds through a float, which can give one more just below a large power of two.
- CuckooModel.SetUpEpochIff: likewise exact in the logarithm, so the rounding just below 2^27 requested slots is not in it.
- Cuckoo.CuckooCache.constructor: takes the same exact logarithm.
- Cuckoo: flags are plain booleans, not packed atomics, and operations do not overlap.
- Adam: parsing of blocks and scripts and the validity of keys and the authorisation checks are parameters; the ping-state generation counter and the map from seeds to blocks are left out.
- Adam.AdamRegistry.RegisterOnChainMasternodePing: takes the outcome of the authorisation, and the inline delegation if its own checks pass, as parameters.
- AdamSeed.SeedMemo.GetAdamSeed: a block has one proof, whether it is read from disk or from the cache of recent proofs.
- Arith: hexadecimal and floating-point conversions, decrement and the bitwise operators between numbers.
- Arith.BaseUint.CompareTo: the equality operators compare memory and are not modelled separately.
- Kernel: the stake modifier, the lookup of outputs and the parsing of time locks; amounts are unbounded, so overflow of a 64-bit amount is not modelled.
- Bech32: characters are taken as bytes; address types and their versions.
- Base58: strings end at their length, not at a zero byte; the checked forms with a hash at the end.
- Chain: copying and comparing chains.
- Bloom: the sizing formulas and the matching of transactions; a filter is an array of bits rather than of bytes.
- Network, storage, wallet, scripts, mining and user interface: input and output or library calls, with little to prove.
