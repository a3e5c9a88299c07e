# pg_tde access method: verified model

pg_tde is a copy of PostgreSQL's heap access method that keeps tuple data encrypted on its pages.
This project models the algorithms that work on its pages and tuples, and proves what they promise.
Each file is one module; `Base` holds what several of them share.

| part | modules | what is proved |
|---|---|---|
| HOT pruning | `HotChain`, `PrunePlan`, `PruneSafety`, `Prune`, `PruneVisibility`, `RootMap` | pruning a page changes no index scan of any snapshot that vacuum's horizon respects; the change lists are sound and fit; the root map agrees with chain search |
| positional cipher | `Crypt` | the batched CTR-mode loop (section 6.5 of NIST SP 800-38A) is an XOR with a keystream that depends on the position only; laws of re-encryption |
| defragmentation | `Compactify`, `CompactSafety`, `RepairPage`, `PageCleanup` | where tuples and line pointers end up, what every byte of every slot becomes, and exactly which pages keep all rows; with pruning, that an index scan reads the same row |
| table rewrite | `Rewrite` | update chains are relinked whatever order tuples arrive in; nothing is lost or written twice |
| visibility | `TupleHeader`, `Visibility` | the decision trees compute what a snapshot sees; vacuum's "dead" means exactly "seen by nobody, ever"; a snapshot shows the same for as long as it is used |
| freezing and vacuum | `MultiXact`, `Freeze`, `PageFreeze`, `RelFrozen`, `VacuumRun` | freezing is invisible; all-visible pages are seen by everybody; `relfrozenxid` and `relminmxid` are safe to publish; dead line pointers are all collected and each freed once, and no index entry ever names an unused one |
| tuple locks | `LockMerge` | merging a lock or update into xmax loses no holder and invents none |
| the rest | `IndexValidate`, `Toast`, `FreezeWal`, `VmPins`, `VisibilityMap` | index validation inserts exactly what is missing; TOAST prefixes come back; freeze records replay to the original plans; pins and locks; the packed map |

Conventions used throughout:

- The block cipher is an arbitrary function from counter blocks to 16 bytes, and shifting an `int` by 32 bits or more gives arbitrary values. Statements quantify over all of them, and over every batch size.
- XIDs and multixacts are natural numbers in their linear order, with 0 invalid, 1 bootstrap and 2 frozen.
- Line pointer arrays are sequences with a placeholder at index 0, so that offset numbers are indexes.
- A `rank` witnesses that a page's HOT links are acyclic. `WellFormed` also says that links lead to heap-only tuples and that no two lead to the same tuple.
- What other backends and the operating system decide (transaction states, cleanup locks, page images, the failsafe, the contents of the visibility map) is a parameter or a nondeterministic choice, over which the statements quantify.
- Where the original raises an error, the model returns an error value.
- Loops and updates in place are methods over arrays and objects; the functions they are proved against carry the properties.

Results that differ from what the source's comments or its PostgreSQL ancestor promise:

- Compaction re-encrypts a tuple with the length of the item that comes next in the list, and with a fixed header size. So data may be left out, and re-encryption may reach past the tuple, into its neighbours, and past the page (`StaysWithinIff`). `CompactionKeepsRowsIff` says exactly which pages keep all rows, on all three paths: those in which every keystream position comes into every byte of a row an even number of times. On presorted pages that is the case exactly if no re-encryption reaches a slot that still matters, and each tuple that moves is covered by the length used and has a header of the assumed size (`PresortedKeepsRowsIff`). Small pages show the cases: `ShortLengthLoses`, `NeighbourLoses`, `SpillIntoGap`, `QuietYetOutside`, `SpillsCancel`.
- A TOAST slice that does not start at 0 is decrypted with the wrong part of the keystream: `SliceIsRightIff`.
- `DeadAreReachable` is exactly what it takes for pruning to leave no dead tuple with storage; the source's comment takes it for granted. `DeadMayBeUnreachable` is a page without it.
- `HeapTupleHeaderIsOnlyLocked` is right about a plain xmax only if the flags are: `TakenForLockedIff`. It takes an exclusive lock written before release 9.3, which `HEAP_XMAX_IS_LOCKED_ONLY` recognises, for an update: `OldLockIsTakenForUpdate`.
- `pg_tde_get_root_tuples` checks the range of the wrong variable in its inner loop. It reads line pointers of the page only if and only if every link of a root's chain is in range, and its map is right unless what it reads outside passes for a chain member (`GetRootTuples`). Pruning itself leaves pages with links out of range: `TruncationLeavesStaleLinks`.
- File positions are computed as `bn * BLCKSZ` in 32 bits, so blocks 2^19 apart have the same ones, and no others: `SamePositionIff`, `PositionsRepeat`.
- The counter loop of `Aes128EncryptedZeroBlocks` shifts an `int` by up to 56 bits. Whatever that gives, counter blocks differ for block numbers below 2^31: `CountersAreDistinct`.
- A hint that a mere lock has committed makes `compute_new_xmax_infomask` fail for an update and, for a lock, write the old locker into the new multixact as an updater; otherwise nobody holds the tuple who did not before (`ComputeNewXmax`). Nothing in the source sets the hint on a lock, but no condition on a stored xmax rules it out: `HintedLockIsSound`.

## Model

| member | source | states |
|---|---|---|
| `HotChain.SearchFindsFirst` | src/access/pg_tdeam.c:1478-1617 | a chain search returns the first tuple of the chain that the snapshot sees: every visible member comes at or after it, and none is visible if nothing is returned |
| `HotChain.SearchIgnoresRank` | src/access/pg_tdeam.c:1478-1617 | the result does not depend on how acyclicity is witnessed |
| `HotChain.HotSearchBuffer` | src/access/pg_tdeam.c:1478-1617 | the loop returns what the search function says on a first call, and what comes after the last result on a later one; `all_dead` if and only if nothing was found on a first call and every member of the chain is surely dead |
| `PrunePlan.NothingPlanned` | src/access/pg_tde_prune.c:296-304 | the empty plan satisfies the pruning invariant |
| `PrunePlan.ChainStepKeepsPlanned` | src/access/pg_tde_prune.c:662-864 | recording the outcome of a chain walk keeps the invariant: marks, lists and planned page agree, every doomed prefix is skipped, every change is justified |
| `PrunePlan.ReapKeepsPlanned` | src/access/pg_tde_prune.c:618-659 | reclaiming a dead heap-only tuple outside every chain keeps the invariant |
| `PrunePlan.SkipKeepsPlanned` | src/access/pg_tde_prune.c:360-377 | skipping an item that is marked, unused or dead keeps the invariant |
| `PruneSafety.StorageUntouched` | src/access/pg_tde_prune.c:926-1060 | an item that still has storage is unchanged |
| `PruneSafety.PrunedIsWellFormed` | src/access/pg_tde_prune.c:926-1060 | the pruned page is well formed again |
| `PruneSafety.OneRootPerTuple` | src/access/pg_tde_prune.c:604-865 | only one root can skip to a given tuple |
| `PruneSafety.PruningPreservesSearch` | src/access/pg_tde_prune.c:604-865 | for every TID and every snapshot that sees no doomed tuple, the search finds the same tuple, unchanged, on the pruned page |
| `PruneSafety.PruningPreservesResumedSearch` | src/access/pg_tdeam.c:1478-1617 | a scan that resumes from its last result goes on as it would have |
| `PruneSafety.RedirectsLeadToTuples` | src/access/pg_tde_prune.c:1076-1106 | every redirect targets a heap-only tuple with storage that is not dead |
| `PruneSafety.NoDeadTupleKeepsStorage` | src/access/pg_tde_prune.c:604-865 | no dead tuple keeps its storage if and only if each dead HOT-updated heap-only tuple hangs off a root by dead and recently dead tuples |
| `PruneSafety.DeadMayBeUnreachable` | src/access/pg_tde_prune.c:604-660 | a well-formed page with a dead HOT-updated heap-only tuple that hangs off no root |
| `PruneSafety.IndexableItemsKeepLinePointers` | src/access/pg_tde_prune.c:604-916 | only heap-only tuples become unused; roots stay roots or become dead; dead line pointers stay dead |
| `Prune.PruneState.RecordRedirect` | src/access/pg_tde_prune.c:882-894 | the redirect list grows by one pair and both ends are marked |
| `Prune.PruneState.RecordDead` | src/access/pg_tde_prune.c:897-905 | the dead list grows by one and the item is marked |
| `Prune.PruneState.RecordUnused` | src/access/pg_tde_prune.c:908-916 | the unused list grows by one and the item is marked |
| `Prune.DistinctOffsets` | src/access/pg_tde_prune.c:882-916 | distinct offsets of a page fit the fixed-size lists |
| `Prune.ListsHaveRoom` | src/access/pg_tde_prune.c:882-916 | whenever an item is unmarked, each list has room for it |
| `Prune.WalkChain` | src/access/pg_tde_prune.c:662-812 | the collected items are the chain up to the first tuple that is not dead or recently dead, they fit their array, and `latestdead` is the last dead one among them |
| `Prune.RecordChain` | src/access/pg_tde_prune.c:813-864 | the plan, the marks and the planned page move on as the walked chain says; the count is the number of tuples that lose storage |
| `Prune.PruneRootChain` | src/access/pg_tde_prune.c:662-865 | one root keeps the page-wide invariant, and the count adds up |
| `Prune.HeapPruneChain` | src/access/pg_tde_prune.c:604-865 | one item, root or heap-only, keeps the page-wide invariant, and the count adds up |
| `Prune.PruneChains` | src/access/pg_tde_prune.c:360-381 | after the loop every item has been dealt with, and the count is stored tuples before minus after |
| `Prune.PruneExecute` | src/access/pg_tde_prune.c:926-1060 | the page becomes exactly the planned page without its trailing unused line pointers |
| `Prune.PagePrune` | src/access/pg_tde_prune.c:264-470 | each tuple is judged once; every index scan of every admissible snapshot finds on the new page the very tuple it found before; `ndeleted` is stored tuples before minus after and `nnewlpdead` the number of new dead items |
| `Prune.TruncationPreservesSearchFrom` | src/access/pg_tde_prune.c:1665-1682 | cutting trailing unused line pointers changes no search |
| `Prune.PruneAndTruncatePreserveSearch` | src/access/pg_tde_prune.c:926-1060 | planning, executing and truncating together change no search of an admissible snapshot |
| `PruneVisibility.DoomedIsOver` | src/access/pg_tde_prune.c:732-793 | what pruning takes for dead, a recently dead tuple ahead of a dead one included, was never inserted, or its deletion is over for every snapshot that the horizon respects |
| `PruneVisibility.HorizonIsAdmissible` | src/access/pg_tde_prune.c:512-602 | so every MVCC snapshot that takes all XIDs below the horizon as finished is one that pruning respects, provided that whoever sees an update sees the insertion it was made on |
| `PruneVisibility.PruningIsInvisible` | src/access/pg_tde_prune.c:264-470 | an index scan under such a snapshot, now or later, finds on the pruned page the very tuple it found before |
| `RootMap.ChainsAreDisjoint` | src/access/pg_tde_prune.c:1110-1227 | chains from different roots share no tuple |
| `RootMap.MapOne` | src/access/pg_tde_prune.c:1188-1225 | entering one tuple keeps the map right and moves on along the chain |
| `RootMap.GetRootTuples` | src/access/pg_tde_prune.c:1124-1227 | only the line pointer array is read if and only if every link of a root's chain stays inside it; unless something read outside passes for a chain member, and the result says exactly when, each entry names a root from which the tuple is reached, every reachable tuple has its root, and other entries are invalid; both loops terminate |
| `RootMap.MisledOnlyOutside` | src/access/pg_tde_prune.c:1190-1201 | a walk that stays inside, or finds only unused line pointers outside, is never misled |
| `RootMap.TruncationLeavesStaleLinks` | src/access/pg_tde_prune.c:1190-1201 | a page, a sound pruning plan for it, and free space behind the truncated array with which the walk is misled |
| `RootMap.RootMapAgreesWithSearch` | src/access/pg_tde_prune.c:1124-1227 | the map names root j for tuple k exactly when a search from j that accepts k alone returns k |
| `RootMap.UnmappedAreUnreachable` | src/access/pg_tde_prune.c:1124-1227 | a tuple without an entry is returned by no search of any snapshot; a tuple that is not heap-only is its own root |
| `Crypt.CountersAreDistinct` | src/encryption/enc_aes.c:176-182 | different block numbers below 2^31 give different counter blocks, whatever shifts beyond the width of the counter give |
| `Crypt.EncryptedZeroBlocks` | src/encryption/enc_aes.c:165-186 | the buffer holds the keystream bytes of the requested blocks, for every batch size |
| `Crypt.CryptIsInvolution` | src/encryption/enc_tuple.c:25-80 | decryption is encryption, at every position |
| `Crypt.CryptCommutesWithSlicing` | src/encryption/enc_tuple.c:25-80 | crypting a slice at its own position is slicing what was crypted |
| `Crypt.CryptOfConcat` | src/encryption/enc_tuple.c:25-80 | crypting piece by piece is crypting the whole |
| `Crypt.NextBatch` | src/encryption/enc_tuple.c:38-78 | batches meet: no byte is skipped or crypted twice, and the last one ends at the length |
| `Crypt.Crypt` | src/encryption/enc_tuple.c:25-80 | for every offset and length, also in place, exactly the requested bytes are XORed with the keystream at their positions |
| `Crypt.ReEncryptionKeepsPlaintext` | src/encryption/enc_tuple.c:85-103 | re-encrypting for another position keeps the plaintext |
| `Crypt.MoveEncryptedData` | src/encryption/enc_tuple.c:85-103 | the written bytes are the read ones re-encrypted for the new position, also in place; nothing else changes |
| `Crypt.AddItem` | src/encryption/enc_tuple.c:136-158 | a stored item is its header in the clear and its data encrypted for its place; the rest of the page is unchanged |
| `Crypt.ReadTuple` | src/encryption/enc_tuple.c:113-133 | a tuple read from the page is its stored image decrypted for its place |
| `Crypt.StoreThenRead` | src/encryption/enc_tuple.c:113-158 | storing a tuple and reading it back returns it |
| `Crypt.SamePositionIff` | src/encryption/enc_tuple.c:113-119 | two places have the same file position if and only if their offsets are equal and their blocks a multiple of 2^19 apart |
| `Crypt.PositionsRepeat` | src/encryption/enc_tuple.c:113-119 | block 2^19 is encrypted with the bytes of block 0 |
| `Compactify.PresortedMovesUp` | src/access/pg_tde_prune.c:1279-1385 | presorted tuples only move towards the end of the page |
| `Compactify.ChunkGeometry` | src/access/pg_tde_prune.c:1337-1403 | a chunk of adjacent tuples moves as a whole to where its items belong |
| `Compactify.RekeyItem` | src/access/pg_tde_prune.c:1343-1359 | every byte of the buffer after one re-encryption, in the tuple or behind it |
| `Compactify.RekeyedProgress` | src/access/pg_tde_prune.c:1343-1359 | what one more re-encryption does to what is still to be moved, to what has been moved, and to the end of the page |
| `Compactify.FlushedProgress` | src/access/pg_tde_prune.c:1363-1375 | one memmove or memcpy takes a chunk to its place and spares what has yet to move and what has been moved |
| `Compactify.FlushChunk` | src/access/pg_tde_prune.c:1363-1375 | the buffers are then in the state of a run that has moved the chunk |
| `Compactify.CompactItem` | src/access/pg_tde_prune.c:1337-1376 | one iteration leads from one state of the run to the next |
| `Compactify.LoopDone` | src/access/pg_tde_prune.c:1337-1549 | at the end every slot and everything behind the tuples is what the re-encryptions come to |
| `Compactify.CompactifyTuples` | src/access/pg_tde_prune.c:1271-1549 | on all three paths and for all lengths: `pd_upper` and every line pointer are the packed ones; every byte of every slot is the tuple's, XORed with the keystream of the re-encryptions that reach it before and after its move; what lies behind the tuples changes by those alone that reach it; neither buffer is left if re-encryption stays within it |
| `CompactSafety.SlotsArePacked` | src/access/pg_tde_prune.c:1271-1549 | new slots are disjoint and fill the end of the page without gaps, in list order |
| `CompactSafety.RowIsThere` | src/access/pg_tde_prune.c:1271-1549 | what compaction leaves at a tuple's new place is the row that the following statements speak of |
| `CompactSafety.EvenCancels` | src/encryption/enc_tuple.c:25-80 | keystream positions that occur an even number of times cancel, whatever the keystream |
| `CompactSafety.ShownUnder` | src/encryption/enc_tuple.c:25-80 | and where one does not, there is a block cipher under which it shows, on every machine |
| `CompactSafety.RowSurvivesIff` | src/access/pg_tde_prune.c:1271-1549 | a row reads as before under every block cipher if and only if in each of its bytes every keystream position, of all re-encryptions that reach it and of reading it before and after, occurs an even number of times |
| `CompactSafety.CompactionKeepsRowsIff` | src/access/pg_tde_prune.c:1271-1549 | compaction keeps all rows of a page if and only if that holds of its items; for all lengths, on all paths |
| `CompactSafety.LoudBreaks` | src/access/pg_tde_prune.c:1279-1403 | on a presorted page, the last item whose re-encryption reaches a slot that still matters costs the tuple above it its header |
| `CompactSafety.PresortedKeepsRowsIff` | src/access/pg_tde_prune.c:1279-1403 | a presorted page keeps all rows if and only if no re-encryption reaches a slot that still matters, and every tuple that moves is covered by the length used and has a header of the assumed size |
| `CompactSafety.QuietKeepsRowsIff` | src/access/pg_tde_prune.c:1271-1549 | on every path, where no re-encryption reaches a slot that still matters, all rows are kept if and only if every tuple that moves is so covered |
| `CompactSafety.StaysWithinIff` | src/access/pg_tde_prune.c:1343-1359 | all bytes that are re-encrypted lie in the page and the scratch copy if and only if no item from the first that moves on starts so late that the length used takes it past their end |
| `CompactSafety.EqualLengthsSuffice` | src/access/pg_tde_prune.c:1271-1549 | rows of one length with fixed-size headers survive every compaction |
| `CompactSafety.ShortLengthLoses` | src/access/pg_tde_prune.c:1343-1359 | two rows of 60 and 32 bytes, of which the first is lost because the length used is short |
| `CompactSafety.NeighbourLoses` | src/access/pg_tde_prune.c:1343-1359 | three rows of 32, 32 and 64 bytes, all covered, of which the first is lost to the re-encryption of the second |
| `CompactSafety.SpillIntoGap` | src/access/pg_tde_prune.c:1343-1359 | two rows of 32 and 64 bytes, of which the first is re-encrypted past its slot and nothing is lost |
| `CompactSafety.QuietYetOutside` | src/access/pg_tde_prune.c:1343-1359 | two rows of 32 and 300 bytes, of which none is lost although bytes behind the page are re-encrypted |
| `CompactSafety.SpillsCancel` | src/access/pg_tde_prune.c:1450-1545 | five rows that are not presorted, on which two re-encryptions reach a third row and cancel |
| `PageCleanup.SameRow` | src/access/pg_tde_prune.c:1567-1683 | on a page that keeps its rows, a line pointer with a tuple leads to the same row before and after |
| `PageCleanup.CleanupIsInvisible` | src/access/pg_tde_prune.c:926-1060 | pruning and defragmentation together: an index scan finds the same tuple and reads the same row |
| `RepairPage.CollectItems` | src/access/pg_tde_prune.c:1605-1647 | the items are exactly the line pointers with storage, an out-of-bounds one is reported, `presorted` is set exactly for descending offsets, and the counts are right |
| `RepairPage.CheckPage` | src/access/pg_tde_prune.c:1592-1660 | the error is the first check that fails, decided before anything changes |
| `RepairPage.DropTrailingUnused` | src/access/pg_tde_prune.c:1665-1682 | the array ends at the last used line pointer, and the hint says whether unused ones remain |
| `RepairPage.SlotsAreAligned` | src/access/pg_tde_prune.c:1592-1647 | `pd_upper` and all new tuple offsets are multiples of 8 |
| `RepairPage.RepairFragmentation` | src/access/pg_tde_prune.c:1567-1683 | a page that fails a check is untouched; of any other, every slot and line pointer is as compaction says, every tuple begins at a multiple of 8, its line pointer array ends at the last used one, and its hint tells exactly whether unused ones remain |
| `Rewrite.RewriteState.RawInsert` | src/access/pg_tde_rewrite.c:607-735 | a tuple that fits a page gets a TID nobody else has, under which it is found, with its own TID as ctid if it had none; every other tuple is found as before |
| `Rewrite.RewriteState.MakeRoom` | src/access/pg_tde_rewrite.c:667-711 | a full page is written out, which changes no tuple, and afterwards there is room |
| `Rewrite.RewriteState.WriteStep` | src/access/pg_tde_rewrite.c:472-550 | one write keeps the run invariant; afterwards the older half of the pair is in hand, pointing to the new TID and with fewer tuples waiting, or nothing is |
| `Rewrite.RewriteState.WriteChain` | src/access/pg_tde_rewrite.c:469-551 | the resolve loop ends, because the unresolved table shrinks, with nothing left in hand |
| `Rewrite.RewriteState.Receive` | src/access/pg_tde_rewrite.c:375-462 | the run invariant holds with the tuple added: it is in hand, pointing to its successor's new place if that is in the new heap, or it waits |
| `Rewrite.RewriteState.RewriteTuple` | src/access/pg_tde_rewrite.c:363-551 | the run invariant holds with the tuple added; it fails only for a tuple too big for a page |
| `Rewrite.RewriteState.RewriteDeadTuple` | src/access/pg_tde_rewrite.c:553-605 | a dead tuple drops exactly the tuple that waits for it, and reports it |
| `Rewrite.RewriteState.FlushPending` | src/access/pg_tde_rewrite.c:302-318 | every tuple that still waits is written once and points to itself |
| `Rewrite.RewriteState.EndRewrite` | src/access/pg_tde_rewrite.c:302-345 | the finished heap is the reference relinking of all tuples presented, and all of it is on disk |
| `Rewrite.CopyTable` | src/access/pg_tdeam_handler.c:860-1000 | for every order of live and dead tuples: each row that is kept is found at its new TID with its data, length and update flag, its ctid leads where the reference says, and its xmin is the old one, or frozen exactly if normal and older than the freeze limit; no page is overfull; vacuumed plus copied tuples are all tuples presented |
| `Rewrite.FreezingKeepsPairs` | src/access/pg_tde_rewrite.c:385-504 | freezing on the way hides no pair: old and new halves match exactly as their unfrozen XIDs say |
| `Rewrite.SettledIsNotGone` | src/access/pg_tde_rewrite.c:553-605 | a tuple whose chain leads to its end through live tuples is never dropped |
| `Rewrite.PlacedAreSettled` | src/access/pg_tde_rewrite.c:441-551 | at any moment, the tuples written are exactly those whose chain so far leads to its end |
| `Rewrite.DeadDrops` | src/access/pg_tde_rewrite.c:553-605 | what a dead tuple drops is what the reference says |
| `Rewrite.NotSeenYet` | src/access/pg_tde_rewrite.c:363-551 | the two tables never share a key |
| `Rewrite.Resolve` | src/access/pg_tde_rewrite.c:506-529 | writing the newer half releases the older one with the right link |
| `Rewrite.Record` | src/access/pg_tde_rewrite.c:531-543 | a newer half nobody waits for goes on record, under a key not yet used |
| `Rewrite.FlushedIsRelinked` | src/access/pg_tde_rewrite.c:302-318 | with the flush, every written tuple points to its successor's new TID, or to itself if it has none that is settled |
| `Rewrite.PairsAreLinked` | src/access/pg_tde_rewrite.c:363-551 | for every pair whose newer half is written before the flush, the older one's ctid is the newer one's new TID |
| `Rewrite.ChainsAreRelinked` | src/access/pg_tde_rewrite.c:363-605 | in terms of the old heap alone: a chain of row versions that leads to its newest one is a chain of the new heap, and the newest points to itself |
| `Rewrite.OrderDoesNotMatter` | src/access/pg_tde_rewrite.c:363-605 | two runs over the same live tuples in different orders link the tuples they share alike |
| `Rewrite.NothingLost` | src/access/pg_tde_rewrite.c:553-605 | every live tuple is written if and only if no dead tuple is presented after a tuple that points to it |
| `Visibility.HintsChangeNothing` | src/access/pg_tdeam_visibility.c:118-137 | truthful hint bits change neither visibility nor fate |
| `Visibility.DeadIffNeverSeen` | src/access/pg_tdeam_visibility.c:1166-1190 | a tuple is dead for a horizon, or comes and goes with one transaction, if and only if no snapshot that respects the horizon sees it, now or at any later time |
| `Visibility.DeadIsNeverSeen` | src/access/pg_tdeam_visibility.c:964-1190 | the safe half of this, for all tuples |
| `Visibility.NotDeadIsSeen` | src/access/pg_tdeam_visibility.c:1166-1190 | for any other tuple, a future and a snapshot that sees it |
| `Visibility.SeenByEverybodyIff` | src/access/pg_tdeam_visibility.c:1166-1190 | every snapshot that respects the horizon sees the tuple, now and at any later time, if and only if it is live and its insertion is frozen or older than the horizon |
| `Visibility.FateTells` | src/access/pg_tdeam_visibility.c:1192-1418 | what each verdict means to the snapshots of this and every later moment |
| `Visibility.FateIsFinalIff` | src/access/pg_tdeam_visibility.c:1192-1418 | a verdict can change later if and only if it is one of the two that say "in progress" |
| `Visibility.SnapshotIsStable` | src/access/pg_tdeam_visibility.c:964-1150 | a snapshot shows the same for as long as it is used, whatever becomes of other transactions |
| `Visibility.SnapshotShows` | src/access/pg_tdeam_visibility.c:1059-1076 | of other transactions it shows what had committed when it was taken, and nothing of those that were running or came later |
| `Visibility.CommandsDoNotSeeThemselves` | src/access/pg_tdeam_visibility.c:1015-1057 | a command sees what earlier commands inserted and not what it inserts, no longer what they deleted and still what it deletes |
| `Visibility.UpdateShowsOneVersion` | src/access/pg_tdeam_visibility.c:964-1150 | of the two halves of an update, whoever sees the insertion of the older sees exactly one |
| `Visibility.SurelyDeadIsDead` | src/access/pg_tdeam_visibility.c:1469-1513 | surely dead implies dead |
| `Visibility.HeapTuple.SatisfiesMVCC` | src/access/pg_tdeam_visibility.c:964-1150 | the decision tree computes visibility, and sets truthful hint bits only |
| `Visibility.HeapTuple.SatisfiesVacuumHorizon` | src/access/pg_tdeam_visibility.c:1192-1418 | the decision tree computes the tuple's fate, and sets truthful hint bits only |
| `Visibility.HeapTuple.SatisfiesVacuum` | src/access/pg_tdeam_visibility.c:1166-1190 | with a horizon, a recently dead tuple whose deleter is older is dead |
| `Visibility.HeapTuple.IsOnlyLocked` | src/access/pg_tdeam_visibility.c:1515-1565 | it answers by the flags for a plain xmax and by the updater for a multixact; when it says so, nobody has updated the tuple or whoever did has aborted |
| `Visibility.TakenForLockedIff` | src/access/pg_tdeam_visibility.c:1515-1565 | the answer is right if and only if there is no plain xmax without the lock-only flag and the invalid hint, unless that is an update that has not aborted |
| `Visibility.OldLockIsTakenForUpdate` | src/access/pg_tdeam_visibility.c:1542-1548 | an exclusive lock as written before release 9.3, for which the answer is wrong |
| `MultiXact.RankIsStrength` | src/access/pg_tdeam.c:126-164 | a lock mode ranks no higher than another if and only if the other keeps out all that it does |
| `MultiXact.MultiXacts.GetHintBits` | src/access/pg_tdeam.c:7017-7086 | the lock bits are those of the strongest member, LOCK_ONLY holds exactly without an updater, and KEYS_UPDATED tells of one that touches keys |
| `Freeze.NeedsEventualFreezeIff` | src/access/pg_tdeam.c:7379-7418 | a tuple needs freezing some day if and only if it leaves a normal XID or a multixact behind |
| `Freeze.OnlyTheseMatter` | src/access/pg_tdeam.c:7434-7527 | what snapshots and vacuum make of a tuple depends on the states of those XIDs alone that the trackers keep track of |
| `Freeze.ShouldFreeze` | src/access/pg_tdeam.c:7434-7527 | true exactly if something in the tuple, members included, is too old; the trackers become safe bounds and go no further back than the tuple demands |
| `Freeze.FirstPass` | src/access/pg_tdeam.c:6190-6210 | replacing is needed exactly if some member is older than the freeze limit |
| `Freeze.SecondPass` | src/access/pg_tdeam.c:6235-6331 | kept are exactly the running members and an updater that has not aborted |
| `Freeze.FreezeMultiXactId` | src/access/pg_tdeam.c:6067-6400 | whatever replaces a multixact keeps everyone who matters and nobody too old; it fails only if the members contradict the cutoffs |
| `Freeze.TotallyFrozenIff` | src/access/pg_tdeam.c:6615-6679 | a plan is reported totally frozen exactly if it leaves a tuple that needs no eventual freeze |
| `Freeze.FrozenPageIsTracked` | src/access/pg_tdeam.c:6417-6680 | once plans are carried out, no XID or multixact older than the "freeze" trackers is left, and these stay at or above the cutoffs |
| `Freeze.UpdaterAfter` | src/access/pg_tdeam.c:6417-6680 | the updater after freezing is the one before, unless that one has aborted |
| `Freeze.FreezingKeepsVisibility` | src/access/pg_tdeam.c:6417-6704 | no snapshot that respects the horizon, now or later, can tell a frozen tuple from what it was |
| `Freeze.FreezingKeepsFate` | src/access/pg_tdeam.c:6417-6704 | nor can vacuum |
| `Freeze.FreezingKeepsRunning` | src/access/pg_tdeam.c:6067-6680 | no running transaction that locks or updates the tuple is forgotten |
| `Freeze.FreezingKeepsFlags` | src/access/pg_tdeam.c:6417-6704 | freezing keeps the HOT link unless xmax is removed, and then clears it; a plain xmax keeps its lock and key bits, a new multixact gets those of its members, and all other bits stay |
| `Freeze.ChecksNeverFail` | src/access/pg_tdeam.c:6721-6790 | the checks made before plans are carried out pass for every tuple that vacuum does not call dead |
| `Freeze.PrepareFreezeTuple` | src/access/pg_tdeam.c:6417-6680 | both pairs of trackers are safe and go no further back than to something that is left; freezing is forced if and only if the cutoffs leave no choice; the plan is invisible, keeps the HOT link and passes its checks; it fails only if something in the tuple is older than the cutoffs allow |
| `PageFreeze.ScanTuple` | src/access/pg_tde_vacuumlazy.c:1652-1790 | one tuple is judged and prepared; it fails only for a corrupt tuple |
| `PageFreeze.ScanPage` | src/access/pg_tde_vacuumlazy.c:1602-1798 | the page's flags, cutoff, plans and dead items say what is true of all its tuples; a retry is asked for only if a tuple is dead |
| `PageFreeze.PlansFreezeAll` | src/access/pg_tdeam.c:6770-6790 | carrying out the array of plans gives each tuple its own plan and changes nothing else |
| `PageFreeze.Page.ExecutePrepared` | src/access/pg_tdeam.c:6721-6790 | all checks come first: either all plans are carried out or none |
| `PageFreeze.PageVisibleToAllIff` | src/access/pg_tde_vacuumlazy.c:3242-3353 | the test for an all-visible page holds if and only if every snapshot that respects the horizon sees every tuple on it, now and at any later time, no line pointer is dead, and every inserter is known by a hint bit to have committed |
| `PageFreeze.CutoffIsEnough` | src/access/pg_tde_vacuumlazy.c:3242-3353 | a snapshot for which every XID up to the cutoff is finished sees all tuples of such a page |
| `PageFreeze.NewestXminIs` | src/access/pg_tde_vacuumlazy.c:3333-3339 | the cutoff is the newest normal xmin on the page |
| `PageFreeze.VacRel.LazyScanPrune` | src/access/pg_tde_vacuumlazy.c:1571-1920 | the trackers are no later than anything left on the page, no earlier than the cutoffs, and at something that is left if they have moved; nobody can see the difference; a page is frozen exactly when required, for free, or worth it after a full page image; dead items and `hastup` are those of the page; it is called all-visible exactly if it passes the test, and then every snapshot that respects the horizon sees every tuple left on it; it fails only for a corrupt page |
| `PageFreeze.VacRel.LazyScanNoprune` | src/access/pg_tde_vacuumlazy.c:1976-2108 | the same trackers for a page that is not changed; it declines exactly if the vacuum is aggressive and some tuple is too old |
| `PageFreeze.AgreesUnfrozen` | src/access/pg_tde_vacuumlazy.c:1864-1896 | a page found all-visible and not frozen is so for `pg_tde_page_is_all_visible`, with the same cutoff |
| `PageFreeze.AgreesFrozen` | src/access/pg_tde_vacuumlazy.c:1833-1896 | a page found all-visible and frozen is so too, with the same all-frozen answer and no cutoff |
| `PageFreeze.ConclusionAgrees` | src/access/pg_tde_vacuumlazy.c:1806-1896 | whatever is decided about freezing, the conclusion is what the stripped-down check will find |
| `PageFreeze.VacRel.PageIsAllVisible` | src/access/pg_tde_vacuumlazy.c:3242-3353 | the answer is yes if and only if the page, with the hint bits it has got by then, passes the test for an all-visible page, and then every snapshot that respects the horizon sees every tuple of it, and cutoff and all-frozen answer are right |
| `PageFreeze.HintedPageAgrees` | src/access/pg_tde_vacuumlazy.c:3242-3353 | those hint bits take nothing from a page that is visible to all, and nobody else can see them |
| `PageFreeze.CheckAgrees` | src/access/pg_tde_vacuumlazy.c:1883-1896 | a page that `lazy_scan_prune` calls all-visible is so for the stripped-down check, with the same all-frozen answer and the same cutoff or none |
| `RelFrozen.ScanSkip` | src/access/pg_tde_vacuumlazy.c:1300-1400 | all blocks before the next unskippable one may be skipped, they are only if there are 32 of them, and skipping one that is not all-frozen is remembered |
| `RelFrozen.RunDecides` | src/access/pg_tde_vacuumlazy.c:1300-1400 | a block is one of 32 or more in a row that may be skipped if and only if the run between the two nearest that may not is so long |
| `RelFrozen.ScanBlock` | src/access/pg_tde_vacuumlazy.c:964-1026 | without the cleanup lock the block is left as it is, unless an aggressive vacuum finds something overdue; otherwise nobody can tell what is left from the pruned page; the trackers cover all that is left, and are at something that is left if they have moved; it fails only for a corrupt page |
| `RelFrozen.ScanHeap` | src/access/pg_tde_vacuumlazy.c:829-1100 | a block is skipped if and only if it is one of 32 or more in a row that may be, and every other is scanned as `ScanBlock` says; the trackers cover every scanned page, and are where they started or at something left on one; `skippedallvis` tells exactly whether a block that is not all-frozen was skipped; an aggressive vacuum always publishes, and at or above the cutoffs; it fails only for a corrupt page |
| `RelFrozen.PublishedIsSafe` | src/access/pg_tde_vacuumlazy.c:545-600 | what is published as relfrozenxid and relminmxid is no later than any XID or multixact left anywhere in the table, whatever others have done since |
| `VacuumRun.OthersKeepDead` | src/access/pg_tde_vacuumlazy.c:910-946 | other backends neither revive collected line pointers nor index them |
| `VacuumRun.FreeOne` | src/access/pg_tde_vacuumlazy.c:2507-2544 | making a dead line pointer unused is safe once no index names it |
| `VacuumRun.BulkDelete` | src/access/pg_tde_vacuumlazy.c:2323-2398 | cleaning one index more keeps everything safe |
| `VacuumRun.AllSafe` | src/access/pg_tde_vacuumlazy.c:2418-2544 | in every state of a run, no index entry names an unused line pointer |
| `VacuumRun.FreedOnce` | src/access/pg_tde_vacuumlazy.c:2418-2544 | over a whole run, whatever others do, a line pointer goes from dead to unused exactly once if vacuum has freed it, and else never |
| `VacuumRun.CollectedIff` | src/access/pg_tde_vacuumlazy.c:1901-1920 | a line pointer has been collected if and only if it was dead when vacuum looked at its block |
| `VacuumRun.BlocksCounts` | src/access/pg_tde_vacuumlazy.c:1905-1905 | the counter of pages with dead items is the number of different blocks |
| `VacuumRun.Vacuum.CheckFailsafe` | src/access/pg_tde_vacuumlazy.c:2603-2645 | the failsafe is on if and only if some check so far has found danger, and then index vacuuming and cleanup are off |
| `VacuumRun.Vacuum.constructor` | src/access/pg_tde_vacuumlazy.c:395-420 | what a run starts with, by the `index_cleanup` parameter |
| `VacuumRun.Vacuum.VacuumAllIndexes` | src/access/pg_tde_vacuumlazy.c:2322-2398 | it succeeds if and only if no check finds danger, of which there is one before and one after each index; and then no index names any collected TID any more |
| `VacuumRun.Vacuum.VacuumPage` | src/access/pg_tde_vacuumlazy.c:2506-2544 | the collected items of the block are unused afterwards, every other line pointer of the table is as it was, and the line pointer array ends at a used one |
| `VacuumRun.TruncatePage` | src/access/pg_tde_vacuumlazy.c:2542-2544 | cutting the array changes no line pointer for anybody |
| `VacuumRun.Vacuum.VacuumRel` | src/access/pg_tde_vacuumlazy.c:2418-2490 | every collected TID goes from dead to unused, one by one and in order, each with no index entry left; nothing else is changed but by others |
| `VacuumRun.Vacuum.LazyVacuum` | src/access/pg_tde_vacuumlazy.c:2197-2310 | collected TIDs are all freed if index vacuuming was on, is not bypassed and no check finds danger, and else none is and it is off; either way they are forgotten |
| `VacuumRun.Vacuum.CollectDead` | src/access/pg_tde_vacuumlazy.c:1901-1920 | a line pointer is added if and only if it is a dead one of the page; they are added in order and counted |
| `VacuumRun.Vacuum.MakeRoom` | src/access/pg_tde_vacuumlazy.c:905-946 | before every block there is room for a page full of dead items; bypassing is ruled out exactly if there was not; a check is made when it is due |
| `VacuumRun.Vacuum.ScanHeap` | src/access/pg_tde_vacuumlazy.c:829-1290 | in every run, with any lawful interference: what is collected is what is dead on every block that is not skipped (in a table without indexes, of those that can be locked); the failsafe is checked whenever it is due; no state has an index entry naming an unused line pointer; the collected line pointers are freed in order, all of them unless index vacuuming is off, which it is exactly if it was from the start, a check has found danger, or it was bypassed because all that was collected fitted in at once and was little |
| `LockMerge.SingleHolder` | src/access/pg_tdeam.c:4944-4986 | xmax and infomask stand for the new holder alone, with the requested mode |
| `LockMerge.Expand` | src/access/pg_tdeam.c:5040-5044 | the new multixact has the surviving members and the new one, unless it is a member already |
| `LockMerge.MultiMask` | src/access/pg_tdeam.c:7017-7086 | the mask of a multixact names its members and their strongest mode |
| `LockMerge.MergeMulti` | src/access/pg_tdeam.c:4988-5044 | merging with a multixact that counts keeps every member that counts, adds the new one in the mode asked for, and nobody else |
| `LockMerge.MergeOld` | src/access/pg_tdeam.c:4988-5190 | an xmax that is not marked invalid is either merged with, or held by nobody who counts but perhaps the caller in a mode that is then kept |
| `LockMerge.MergeXid` | src/access/pg_tdeam.c:5046-5175 | merging with a plain XID that counts keeps both, and adds nobody else |
| `LockMerge.ComputeNewXmax` | src/access/pg_tdeam.c:4928-5192 | the new xmax and infomask hold the new lock or update, in exactly the mode asked for or that of a stronger lock the caller already had, and every running member and committed updater of the old; hint bits are the strongest mode, LOCK_ONLY holds exactly without an updater; nobody else is made a holder, except that a mere lock that is hinted committed becomes an update; at most one restart; it fails exactly for an update over such a lock |
| `LockMerge.HintedLockIsSound` | src/access/pg_tdeam.c:5046-5067 | a committed transaction's lock with that hint meets the conditions on a stored xmax |
| `LockMerge.NobodyCounts` | src/access/pg_tdeam.c:5024-5036 | a multixact that is dismissed has no member that counts |
| `LockMerge.UpdaterIsHolder` | src/access/pg_tdeam.c:7096-7141 | the updater that visibility goes by is the one updater among the holders |
| `IndexValidate.Merge.Advance` | src/access/pg_tdeam_handler.c:1894-1926 | the cursor ends at or past the root, and what it passed on this page is remembered |
| `IndexValidate.Merge.IsMissing` | src/access/pg_tdeam_handler.c:1930-1932 | the test is true exactly if the index lacks the root, also when it was passed before |
| `IndexValidate.MergeOne` | src/access/pg_tdeam_handler.c:1860-1932 | the root of a tuple is found, and the answer is right, for whatever order roots come in on a page |
| `IndexValidate.ValidateScan` | src/access/pg_tdeam_handler.c:1828-1990 | inserted are the roots of the wanted tuples that the index lacks; it fails only for a tuple without a root, and is misled only by a page that misleads the root map |
| `IndexValidate.MissingIff` | src/access/pg_tdeam_handler.c:1828-1990 | a TID is inserted if and only if it is the root of a wanted visible tuple and not in the index |
| `IndexValidate.InsertedOnce` | src/access/pg_tdeam_handler.c:1828-1990 | with one visible tuple to a chain, none is inserted twice |
| `Toast.Externalize` | src/access/pg_tdetoast.c:831-874 | the datum is encrypted from its start, except for the compression header |
| `Toast.PrefixRoundTrip` | src/access/pg_tdetoast.c:707-874 | any prefix of a plain, short or compressed value comes back as it was |
| `Toast.SliceIsRightIff` | src/access/pg_tdetoast.c:792-811 | a slice of an uncompressed value is right under every block cipher if and only if it starts at 0 |
| `Toast.PartsMeet` | src/access/pg_tdetoast.c:776-781 | what chunks contribute to a slice lies end to end |
| `Toast.DecryptedPart` | src/access/pg_tdetoast.c:792-805 | decrypting part of a chunk gives that part of the slice |
| `Toast.CopyChunk` | src/access/pg_tdetoast.c:776-811 | one chunk fills in its part of the slice and keeps the parts before it |
| `Toast.FetchSlice` | src/access/pg_tdetoast.c:707-813 | the slice is fetched exactly if the chunks needed are there in order with their sizes, across any number of chunks |
| `FreezeWal.SortSorts` | src/access/pg_tdeam.c:6832-6875 | the comparison orders the plans, and sorting keeps them |
| `FreezeWal.LogFreezePlan` | src/access/pg_tdeam.c:6916-6965 | stored plans are pairwise distinct and in order, their counts add up to the tuples, and the record stands for exactly the plans given |
| `FreezeWal.ExpandAt` | src/access/pg_tdeam.c:9130-9163 | the offsets of a group go with its plan |
| `FreezeWal.AppliedAt` | src/access/pg_tdeam.c:9130-9163 | with distinct offsets each tuple gets its own plan and others none |
| `FreezeWal.Replay` | src/access/pg_tdeam.c:9130-9163 | replay carries out what the record stands for |
| `FreezeWal.ReplayUndoesGrouping` | src/access/pg_tdeam.c:6916-6965 | recording and replaying gives every tuple exactly the plan it had |
| `VmPins.GetVisibilityMapPins` | src/access/pg_tde_io.c:144-216 | whatever happens to the flags while buffers are unlocked, both end locked and pinned where needed, after at most three passes; locks are released if and only if a pin was needed to begin with |
| `VisibilityMap.Set` | src/access/pg_tde_visibilitymap.c:248-319 | only the block's own bits change, to include the flags; frozen implies visible |
| `VisibilityMap.Clear` | src/access/pg_tde_visibilitymap.c:142-177 | only the block's own bits change; the result tells whether they were set; visible is never cleared without frozen |
| `VisibilityMap.ByteCount` | src/access/pg_tde_visibilitymap.c:111-127 | the masked population of a byte is the number of its blocks with the flag |
| `VisibilityMap.CountBytes` | src/access/pg_tde_visibilitymap.c:388-447 | so is that of a word, or of any run of bytes |
| `VisibilityMap.TotalIsAll` | src/access/pg_tde_visibilitymap.c:388-447 | adding up the map pages counts each heap block once |
| `VisibilityMap.Count` | src/access/pg_tde_visibilitymap.c:388-447 | the counts are the numbers of heap blocks, over all map pages, that are visible and frozen |
| `VisibilityMap.ClearTail` | src/access/pg_tde_visibilitymap.c:483-520 | within a page, exactly the blocks at or past the new end are cleared |
| `VisibilityMap.Truncate` | src/access/pg_tde_visibilitymap.c:450-547 | exactly the blocks at or past the new size are cleared, and the map is as long as it needs to be |

## Left out

- Compactify.CompactifyTuples: takes a buffer that re-encryption does not leave. `StaysWithinIff` says when one page is enough, which the code does not check; otherwise the buffer needs slack behind the page, whose bytes are stated too, and what they belong to in memory is not modelled.
- RepairPage.RepairFragmentation: takes for granted what the code does not check, that tuples do not overlap and are at least a header long.
- RootMap.GetRootTuples: stops where something outside the line pointer array passes for a chain member; what the walk does from there on is not modelled. It would enter that offset in `root_offsets`, possibly past its end.
- Visibility.HeapTuple.SatisfiesMVCC: tuples with `HEAP_MOVED` bits, left from before release 9.0, are excluded here, in `FreezingKeepsRunning` and in all results about pages of tuples; `PrepareFreezeTuple` does cover their XIDs.
- LockMerge.ComputeNewXmax: requires what a stored xmax satisfies (a committed hint is true, an update of the caller's own is not merged into), and that a rival updater has been waited for.
- PageFreeze.VacRel.LazyScanPrune: one attempt on a page that has been pruned, with transaction states fixed during the attempt; the retry is the caller's.
- RelFrozen.ScanHeap: page images after pruning are inputs, none with a tuple that died since (those are the ones that retry); a non-aggressive vacuum's trackers have no lower bound, as in the source.
- VacuumRun.Vacuum.ScanHeap: which blocks are skipped and which can be locked are parameters, since `RelFrozen` has the rule for skipping; the bypass threshold of two percent is a division by 50; indexes are vacuumed one after the other, not in parallel.
- Rewrite.CopyTable: tuples come with the size they have after toasting; failures of freezing on the way and logical-rewrite mappings are not modelled.
- Crypt.EncryptedZeroBlocks: requires block numbers below 2^31, where the loop's `int` counter does not overflow.
- Toast.FetchSlice: slices of compressed values start at 0 and include the compression header, as the code's assertion and its callers have it.
- FreezeWal.LogFreezePlan: qsort is a function that sorts; equal elements do not occur, since offsets differ.
- Pruning: `pd_prune_xid`, the snapshot conflict horizon, `old_snapshot_threshold`, and the decision whether to prune at all.
- Buffers, WAL, free space map, statistics, progress reports, prefetching, relation extension and truncation, parallel vacuum and parallel scans.
- Visibility map: its WAL records and the races between setting a bit and clearing `PD_ALL_VISIBLE`.
- The keyring, key files and key cache, OpenSSL, GUCs and the transaction callback that deletes files.
- Waiting for tuple locks in update, delete and lock, with the unlocking and relocking around it; the heavyweight lock manager, MultiXact storage and the proc array, which enter only as contracts.
- Replay other than of freeze records, and the prefix and suffix compression of update records.
- Historic snapshots, dirty and self snapshots, serializable conflict checks, bottom-up index deletion, and the thin table access method callbacks.
- Wrap-around of XIDs: the order is linear.
