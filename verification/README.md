# CLaMPI: the cache of a window, verified

CLaMPI caches the results of one-sided MPI gets.  Each window has a cache made of four
parts that depend on one another:

* a buffer, tiled by regions that a doubly linked list of descriptors describes, each region
  BUSY (an entry) or FREE;
* an AVL tree over a pool of nodes that holds the FREE regions by size, with parent links,
  stored balance factors, equal sizes, and deletion by node;
* a cuckoo index of the entries, four tables in one array, whose insertions are preceded by a
  read-only dry run of the displacements;
* a stack of pending copies: a new entry gets its bytes only at the next flush, and may be
  evicted, and its descriptor used again, before that.

A get looks its data up, issues the real get if they are not there, chooses the tightest free
region, evicts at most one entry (because the index has no way in, or because nothing fits),
joins the freed region to its free neighbours, perhaps to the region already chosen, cuts the
new entry off the region and indexes it.  This project models all of that in the form of the
C code, with classes over arrays whose methods follow the C functions, and proves that the
parts stay consistent, that the program's assertions and pool limits are never violated, and
exactly when, over whole runs, the application cannot tell a cached window from an uncached one.

## Files

| file | what it is about |
|---|---|
| Descriptors, Sequences | descriptors of regions; sequences without duplicates |
| AvlShape | trees and contexts, what it means for the node pool to hold one, height |
| AvlMoves | rotations, and the climbs that repair balance factors |
| AvlOrder | order by size, back-pointers, node pool, search and insertion |
| AvlDelete | the structural cases of deletion |
| AvlTree | the class `Tree` |
| CuckooWalk, CuckooIndex | displacement walks; the class `HashTable` |
| Regions | the region list: links, tiling, alternation, counting |
| CacheState | what ties list, stack, tree and index together, and how eviction and allocation keep it |
| Blocks | the buffer as a plain list of entries and gaps, and what evictions and new entries do to it |
| Window | the remote side: remote bytes, application memory, gets in progress |
| CacheFlight, CacheDrain | pending copies, and what a flush makes of them |
| CacheSteps, CacheOutcomes | the steps and the outcomes of a get, on values |
| ClampiCache | the class `Cache` |
| Runs | whole runs against an execution without a cache |

Two conventions run through the files.  A method on arrays is proved against a relation on the
sequences of values before and after it, and lemmas about that relation carry the argument.
Primed names are the later values: `D` and `D'` are descriptors before and after, `o` is the
list of regions from left to right, `F` the stack of unused descriptors, `m` the entries by key.
The exception is AvlShape, where `Ids'`, `Pairs'` and `Rep'` are the versions for a tree with a
hole (a context) of what `Ids`, `Pairs` and `Rep` are for a tree.

## Main results

* `Runs.Program` and `Runs.Run`: from the creation of the window on, for every sequence of gets,
  flushes of any rank, invalidations, stores by the application and updates of the remote
  window, within the rules of one-sided communication.  Each outcome is what a ledger of cached
  and awaited keys says.  The ledger also has the doubtful keys: those taken by the flush of
  another rank, and those whose remote bytes changed after they had arrived.  Every hit on
  another key delivers the remote bytes of its moment, and the memory is that of a run without a
  cache, but where a get is in progress or a doubtful hit has left its bytes.  Nothing is ever
  doubtful exactly if all flushes and updates are sound.  In transparent mode they are, and there
  is no hit at all; in any mode they are if the application flushes before it turns to another
  rank and invalidates before what it has read changes (`Runs.CarefulIsSound`).  The program
  exits only at a get that finds 64 copies pending.
* `CacheDrain.FlushSound`: a flush of one rank leaves the cache right, whatever the remote window
  holds, exactly if no entry of another rank waits for any bytes.  `Runs.OtherRankFlushed` is a
  wrong hit that follows otherwise.
* `ClampiCache.Cache.Get`: on every path the invariant `Valid` holds again: the list tiles the
  buffer without gap or overlap and without two adjacent free regions, the tree holds exactly
  the free regions, the index exactly the entries, and descriptors and tree nodes suffice.  The
  outcome has its exact cause, at most one entry is evicted, and a fitting free region is always
  enough.  The buffer as a list of entries and gaps is exactly what `Blocks.Arranged` says: the
  victim and the gaps next to it become one gap, the entry goes to the front of the tightest
  gap, or of what that has become part of, and takes it whole exactly if the size is the same.
  Every entry keeps the time of its last use, and the one asked for was used now.
* `CuckooIndex.HashTable.InsertCheck` and `Insert`: the dry run predicts the real insertion
  exactly, also after the removal of the victim it names or of any other entry; no entry is lost,
  and each slot of the walk passes its content on to the next.  With one bucket a table an
  insertion succeeds exactly if one of the four slots is empty (`CuckooWalk.OneBucketEach`).
* `AvlTree.Tree.Insert` and `DeleteNode`: exactly one datum comes, in front of those of its
  size, or goes; every other one still knows the node that holds it, also where data move
  between nodes; search and climb take at most twice the height in steps, and the height is
  logarithmic in the pool.
* `ClampiCache.Cache.GetStats`: the reported number of entries is always one too high.

## Model

| member | source | states |
|---|---|---|
| Runs.Program | src/clampi_get.c:7-461 | from the creation of the window on: the results of Run for every program within the rules of one-sided communication; a careful application, and any in transparent mode, cannot tell that there is a cache |
| Runs.Run | src/clampi_get.c:7-461 | every run over any ranks and under a changing remote window: outcomes as an exact ledger says; hits right but on doubtful keys; equal memory but where a get is in progress or a doubtful hit left its bytes; nothing ever doubtful exactly if all flushes and updates are sound; an exit only at a get that finds 64 copies pending, after at least 64 gets since the last flush or invalidation |
| CacheDrain.FlushSound | src/clampi_win_flush.c:5-47 | a flush of one rank leaves all entries right for every remote window that agrees with what has arrived, exactly if no entry of another rank waits for any bytes |
| Runs.OtherRankFlushed | src/clampi_win_flush.c:21-34 | a concrete run, with a flush that is not sound, that ends in a hit with wrong data |
| ClampiCache.Cache.Get | src/clampi_get.c:7-461 | a hit exactly if the data are cached and have arrived; valid on every path that returns; each outcome with its exact cause, the index having no way in or nothing fitting; at most one entry evicted, the one with the least score on the walk or in the sample; the blocks of the buffer exactly as the choice of gap, victim and split makes them; the entry asked for is used now and all others when they were; exit exactly if the data would be cached and 64 copies are pending |
| CuckooIndex.HashTable.InsertCheck | src/ht.h:48-106 | no victim exactly if the insertion will succeed; otherwise a live entry whose removal makes it succeed, the first with the least score among the 11 slots of the walk |
| CuckooIndex.HashTable.Insert | src/ht.h:111-179 | the new entry is added and no other is lost; each slot of the walk takes over what the one before it held, with its time of use, and no other slot changes |
| AvlTree.Tree.Insert | src/AVL/AvlTree.c:96-131 | the datum is inserted before the first one that is not smaller, all others stay on their nodes, the returned node holds it, and search and climb take at most twice the height in steps |
| AvlTree.Tree.DeleteNode | src/AVL/AvlTree.c:137-230 | exactly the datum of that node is gone, the others are in the same order, each back-pointer leads to the node that holds its datum, one node returns to the pool, and the steps are at most twice the height |
| AvlTree.Tree.HeightInPool | src/AVL/AvlTree.c:252-269 | the height is at most logarithmic in the number of data and so in the size of the pool |
| AvlShape.HeightBound | src/AVL/AvlTree.c:374-438 | a tree of height h with exact, bounded balance factors holds at least Fib(h+2)-1 data |
| AvlShape.HeightLogarithmic | src/AVL/AvlTree.c:374-438 | the number of data plus one is at least 2 to the power h/2 |
| AvlShape.PlugRep | src/AVL/AvlTree.c:374-400 | a subtree and its surroundings, each represented in the pool with the right height, make one represented tree, and every represented tree splits so |
| AvlMoves.LeftRotated | src/AVL/AvlTree.c:463-489 | the links and balance factors written by the left rotation represent the rotated tree, in any surroundings, with the same data in order |
| AvlMoves.RightRotated | src/AVL/AvlTree.c:491-517 | the same for the right rotation |
| AvlMoves.LeftRightRotated | src/AVL/AvlTree.c:519-564 | the same for the left-right double rotation, for all three balance factors of the middle node |
| AvlMoves.RightLeftRotated | src/AVL/AvlTree.c:566-611 | the same for the right-left double rotation |
| AvlMoves.ClimbInsert | src/AVL/AvlTree.c:374-400 | one step of the climb after an insertion: the factor is right again and the climb is over, or a rotation is due with a heavy child, or the subtree grew and the parent's factor lags by one |
| AvlMoves.ClimbDelete | src/AVL/AvlTree.c:402-438 | one step of the climb after a deletion, likewise |
| AvlTree.Tree.constructor | src/AVL/AvlTree.c:60-80 | an empty tree whose nodes are all in the pool |
| AvlTree.Tree.Empty | src/AVL/AvlTree.c:85-89 | the tree is empty, and all nodes are in the pool again |
| AvlTree.Tree.NodeNew | src/AVL/AvlTree.c:655-672 | a node off the top of the pool, with the given datum and parent and no children |
| AvlTree.Tree.CountNodes | src/AVL/AvlTree.c:271-273 | the number of data, from the pool counter |
| AvlTree.Tree.CSearchNode | src/AVL/AvlTree.c:252-269 | a datum of minimum size among those not smaller than the request, or none exactly if there is none; of several of one size, the first in order unless the size is that requested, and then the one met first on the way down; at most as many steps as the tree is high |
| AvlTree.Tree.CutLeaf | src/AVL/AvlTree.c:143-156 | taking out a leaf removes exactly its datum, leaves all others in order on their nodes, and balances the tree again |
| AvlTree.Tree.CutByChild | src/AVL/AvlTree.c:157-165 | with one child, exactly the node's datum goes; the child's datum moves into the node, its back-pointer follows, and the child's node is given up |
| AvlTree.Tree.Replace | src/AVL/AvlTree.c:440-461 | the target holds what the source held, the source's children hang from it, and the moved datum has the target's handle |
| AvlTree.Tree.CutBySuccessor | src/AVL/AvlTree.c:166-226 | with two children, exactly the node's datum goes, all others stay on their nodes in order, and the tree is balanced again with the in-order successor in place of the node |
| AvlDelete.Succeeded | src/AVL/AvlTree.c:166-226 | putting the leftmost node of the right subtree in place of a node removes exactly that node's datum from the ordered data |
| AvlDelete.HandlesKept | src/clampi_win.c:26-32 | the one handle that the replacement callback rewrites is the one that has to change |
| AvlTree.Tree.RotateLeft | src/AVL/AvlTree.c:463-489 | writes the links and factors that LeftRotated is about, the root included |
| AvlTree.Tree.RotateRight | src/AVL/AvlTree.c:491-517 | likewise for RightRotated |
| AvlTree.Tree.RotateLeftRight | src/AVL/AvlTree.c:519-564 | likewise for LeftRightRotated |
| AvlTree.Tree.RotateRightLeft | src/AVL/AvlTree.c:566-611 | likewise for RightLeftRotated |
| AvlTree.Tree.InsertBalance | src/AVL/AvlTree.c:374-400 | after a subtree grew by one, the tree is represented exactly again, with the same data in the same order on the same nodes |
| AvlTree.Tree.DeleteBalance | src/AVL/AvlTree.c:402-438 | the same after a subtree shrank by one, or when the climb starts at the changed node itself |
| CuckooWalk.WalkNeverRepeats | src/ht.h:79-97 | a displacement walk that reaches an empty slot never visits a slot twice |
| CuckooWalk.EmptiedSlotIsReached | src/ht.h:68-77 | emptying any slot on the walk of the dry run makes the insertion succeed within the bound |
| CuckooWalk.RemovalKeepsInsertable | src/clampi_get.c:107-118 | an insertion that would succeed still does after any one entry is removed |
| CuckooWalk.TooLong | src/ht.h:79-105 | a walk that has used up the bound on an occupied slot means that the insertion would fail |
| CuckooWalk.WalkStep | src/ht.h:91-95 | a displaced entry goes to its own bucket in the table after the one it is displaced from |
| CuckooWalk.WalkStarts | src/ht.h:58-77 | a new key goes to its bucket in the start table, or, exactly if that is occupied, in the table after it |
| CuckooWalk.OneBucketEach | src/ht.h:68-105 | with one bucket a table, an insertion succeeds from any start table exactly if one of the four slots is empty |
| CuckooWalk.CmpiHashIs | src/ht.h:29-37 | the hash of the four tables as a polynomial in the multiplier 33, 5, 51 or 19, modulo 2 to the power 64 |
| CuckooIndex.IndexCapacity | src/ht.h:17 | at most 4*(H/4) entries, and fewer while a usable slot is empty |
| CuckooIndex.InsertableHasRoom | src/clampi_get.c:368-381 | if an insertion will succeed, there are fewer than 4*(H/4) entries |
| CuckooIndex.NextWrite | src/ht.h:151-167 | the mutating loop visits the slots that the dry run has seen, in that order |
| CuckooIndex.BoundSuffices | src/ht.h:151-167 | the loop ends in an empty slot, never because of the move bound |
| CuckooIndex.InsertionUses | src/ht.h:151-167 | the new entry was used now, and each displaced one when it was before |
| CuckooIndex.HashTable.constructor | src/clampi_win.c:84-94 | an empty index over the given descriptors |
| CuckooIndex.HashTable.Reset | src/clampi_win.c:117-126 | the index is empty |
| CuckooIndex.HashTable.Lookup | src/ht.h:181-206 | the entry with the given key if there is one, and none otherwise; exactly its slot is marked as used now |
| CuckooIndex.HashTable.Remove | src/ht.h:208-223 | exactly the given entry leaves the index, and exactly its slot is marked empty |
| CuckooIndex.HashTable.SelectVictim | src/clampi_get.c:138-192 | a live entry, found after at most max(H, 10) slots: the last with the least score among the entries of exactly the slots that the scan has to see |
| Regions.EachByteOnce | src/clampi_get.c:197-286 | every byte of the buffer lies in exactly one region |
| Regions.LengthsAddUp | src/clampi_get.c:197-286 | the lengths of the regions add up to the buffer size |
| Regions.AlternationBound | src/clampi_win.c:75-78 | at most one more free region than busy ones |
| CacheState.DescriptorLeft | src/clampi_internal.h:80-85 | an unused descriptor is left whenever there are fewer than H entries, so the pop never underflows |
| CacheState.NodeLeft | src/AVL/AvlTree.c:658-661 | the tree has a node for the region being indexed, so the program never exits there |
| CacheState.RoomForFreed | src/clampi_get.c:300-306 | the same when the freed region is indexed before the victim leaves the index |
| CacheState.Accounted | src/clampi_win.c:75-82 | lengths add up to the buffer, used and unused descriptors to all, used ones are entries and free regions |
| CacheState.JoinState | src/clampi_get.c:223-286 | joining a neighbour keeps everything that holds in the middle of an eviction, also when the neighbour is the region already chosen |
| CacheState.FreeingEnds | src/clampi_get.c:285-306 | the freed region, joined on both sides, restores the invariant, indexed or taken for the new entry |
| CacheState.SomethingToEvict | src/clampi_get.c:191 | when nothing fits that the buffer could hold, there is an entry, so the assertion on the victim holds |
| CacheState.TakeWhole | src/clampi_get.c:368-369 | a free region of exactly the right size becomes the entry |
| CacheState.CutState | src/clampi_get.c:370-384 | an entry cut off the front of a larger region, with the rest indexed, keeps the invariant |
| CacheState.EntriesApart | src/clampi_get.c:433-447 | different entries occupy disjoint parts of the buffer |
| Blocks.BestFitUsed | src/clampi_get.c:82-96 | a get that evicts nothing puts the entry where a free region begins that fits and is not larger than any that fits; one region more is there exactly if it was larger than the entry |
| Blocks.HeldRegionUsed | src/clampi_get.c:284-306 | if the index forces an eviction although a region fits, the entry goes to the tightest one that fitted, or to the front of the larger one it has become part of |
| Blocks.UsedForAt | src/clampi_get.c:366-396 | the entry begins where the gap began, no byte is lost, and the number of blocks stays exactly if the gap had its size |
| Blocks.FreedAt | src/clampi_get.c:210-282 | a block given up leaves one gap, from the end of what is taken on its left to the beginning of what is taken on its right; no byte is lost |
| Blocks.MovedCovers | src/clampi_get.c:284-306 | whatever a block has become after an eviction covers the bytes it had |
| Blocks.NoRegionWasted | src/clampi_get.c:368-384 | if no region is empty before a get of data that are not empty, none is after it |
| Window.RmaWindow.Flush | src/clampi_win_flush.c:10 | the gets in progress of one rank have delivered their remote bytes, the others are still in progress |
| Window.MemCopy | src/utils.c:40 | the target has the source's bytes at the given place and is unchanged elsewhere |
| CacheFlight.NewFlight | src/clampi_get.c:433-447 | the new entry waits for the new record and no other, even if its descriptor occurs in older records |
| CacheFlight.Evicted | src/clampi_get.c:338-340 | the record of an evicted entry is current no more; all other entries keep place and state of flight |
| CacheDrain.DrainCopies | src/clampi_win_flush.c:24-33 | a record whose entry still waits for it belongs to a live entry, and its copy reaches that entry's region only |
| CacheDrain.DueAfterFlush | src/clampi_win_flush.c:9-33 | what the copy of an entry takes: the remote bytes if it is from the flushed rank, and otherwise what the application's memory held before |
| CacheDrain.FlushFaithful | src/clampi_win_flush.c:5-47 | for one remote window: all entries are right after a flush exactly if those that had arrived were, and what those of other ranks take is right by accident |
| CacheDrain.WrongWindow | src/clampi_win_flush.c:21-34 | when an entry of another rank waits for bytes, there is a remote window that agrees with all that has arrived, and for which no way of making the copies leaves the cache right |
| Window.CompleteUnder | src/clampi_win_flush.c:10 | what the gets in progress deliver depends on the remote bytes they fetch only |
| Window.SplitRank | src/clampi_win_flush.c:10 | completing the gets of one rank first and the others later gives the same memory as completing all |
| ClampiCache.Cache.constructor | src/clampi_win.c:49-100 | a valid, empty cache of the requested size, rounded up to cache lines, one gap, with the hash of the four tables |
| ClampiCache.Aligned | src/clampi_internal.h:111-112 | the least multiple of a cache line that is not smaller |
| ClampiCache.Cache.Reset | src/clampi_win.c:103-156 | the cache is valid and empty, with one free region, whatever state it was in |
| ClampiCache.Cache.Invalidate | src/clampi_invalidate.c:3-11 | the same on behalf of the application |
| ClampiCache.Cache.Absorb | src/clampi_get.c:229-277 | a neighbour is joined to the region being freed and leaves the tree unless it is the one already chosen; the middle-of-eviction invariant holds for the joined region |
| ClampiCache.Cache.HasHandle | src/clampi_get.c:226 | the free neighbour has a handle, as the program asserts |
| ClampiCache.Cache.MergePrev | src/clampi_get.c:213-251 | the victim is joined to a free left neighbour exactly if there is one, and what lies left of it then is not free |
| ClampiCache.Cache.MergeNext | src/clampi_get.c:254-282 | the same on the right |
| ClampiCache.Cache.Settle | src/clampi_get.c:284-306 | which region is used from now on, and that the freed region is indexed exactly if it is not that one |
| ClampiCache.Cache.FreeRegion | src/clampi_get.c:210-306 | the victim's block is given up; the region to use is the one chosen before, or what it has become part of, and if none was chosen the freed one exactly if it fits |
| ClampiCache.Cache.Evict | src/clampi_get.c:197-344 | the invariant without exactly the victim; all other entries keep place, bytes, state of flight and time of use; the blocks of the buffer and the region to use as FreeRegion says |
| ClampiCache.Cache.Allot | src/clampi_get.c:366-396 | the chosen region has become the entry, whole exactly if it has its size and by a cut off its front otherwise, and the index has it besides all others |
| ClampiCache.Cache.Carve | src/clampi_get.c:366-384 | the region for the entry: the chosen one exactly if it has the size, and otherwise a new descriptor for its front |
| ClampiCache.Cache.ChooseRegion | src/clampi_get.c:82-100 | the tightest free region that fits, the one that the search of the tree finds, taken out of the tree, or none exactly if none fits |
| ClampiCache.Cache.ChooseVictim | src/clampi_get.c:102-193 | a victim exactly if the index has no way in or no region fits: the least score on the walk of the insertion, or in the sample of the index; without it there is a way into the index |
| ClampiCache.Cache.MakeRoom | src/clampi_get.c:79-344 | why an entry is evicted and which, that it is one at most, which region is used then, the tightest or what it has become part of, or the victim's, and that there is a way into the index, or no region fits |
| ClampiCache.Cache.Fetch | src/clampi_get.c:53-461 | a real get is issued, and data in flight or too large change nothing |
| ClampiCache.Cache.Miss | src/clampi_get.c:79-461 | what Get says of data that are not cached: outcome, victim, blocks and times of use, with the start table that decides whether the index has a way in |
| ClampiCache.Cache.Place | src/clampi_get.c:359-451 | the new entry is live, used now, in the gap chosen, and waits for the newest record, a copy from the get's origin; failure exactly if 64 copies are pending already |
| ClampiCache.Cache.Find | src/clampi_get.c:20-28 | the entry with that key exactly if one is live; it is used now, and nothing else of the cache changes |
| ClampiCache.Cache.Drain | src/clampi_win_flush.c:12-37 | exactly the entries that waited have got the bytes they waited for, no other byte of the buffer changed, and nobody waits |
| ClampiCache.Cache.Flush | src/clampi_win_flush.c:5-47 | completes the gets of the rank, drains, leaves blocks and index as they are, and in transparent mode leaves an empty cache |
| ClampiCache.Cache.GetStats | src/utils.c:198-206 | the number of free regions is right, the number of entries one too high |
| Runs.ReadStep | src/clampi_get.c:7-461 | a get keeps the cached and the direct execution together; the ledger tells a hit, a wait or a refusal for size exactly, a fitting get of an empty cache is cached, and a hit on a key that is not doubtful delivers the remote bytes; an exit means 64 copies pending |
| Runs.FlushStep | src/clampi_win_flush.c:5-47 | a flush of any rank, with gets to other ranks in progress or not, keeps the executions together; only awaited entries of other ranks become doubtful |
| Runs.StoreStep | src/clampi_get.c:433-447 | the application's own stores, apart from the origins of gets in progress, keep the executions together |
| Runs.UpdateStep | src/clampi_win_flush.c:41-44 | any change of the remote window that leaves the bytes of gets in progress alone; only keys that had arrived, and whose bytes changed, become doubtful |
| Runs.TransparentIsSound | src/clampi_win_flush.c:41-44 | in transparent mode every run is sound, whatever is flushed and however the remote window changes, because all that is cached is still awaited; there are no hits |
| Runs.UndoubtedRuns | src/clampi_win_flush.c:21-34 | nothing is doubtful up to some point of a run exactly if no flush before it took bytes of another rank and no update before it affected what had arrived |
| Runs.CarefulIsSound | src/clampi_invalidate.c:3-11 | invalidating before what was read changes, and flushing each rank before turning to another, is enough in every mode; a condition on the operations alone |
| Runs.FlushTooEarly | src/clampi_win_flush.c:21-34 | on any valid cache not in transparent mode, a flush of another rank right after a get that was cached makes its entry ready with what the memory at the origin held before |

## Where the code and its comments differ

The model follows the code.

* src/AVL/AvlTree.c:93-94 says that inserting data that are in the tree already does nothing;
  the code inserts them again, equal sizes to the left.
* src/clampi_internal.h:195 says that `pending` is -1 while the copy is not completed; it is -1
  once it is, and the number of the pending record before that.
* src/clampi_internal.h:203 says that the record of an evicted entry is cleared; nothing clears
  it, and a flush recognises it because the descriptor no longer names it.
* src/clampi_internal.h:81 asserts that an unsigned number is not negative; the stack pointer is
  an integer here, and it is proved that the stack is not empty.

## Left out

- MPI itself: datatypes and extents, displacement units, locks and return codes.  A get is a rank, a displacement and a size against a remote memory that is a function of these; the truncation of displacements to int is not modelled.
- Early arrival: a get delivers its bytes at the flush, not at some moment before it.  The rule that the origin of a get is not touched before the flush (section 11.3.2 of MPI-3.1) makes the difference invisible to the runs considered.
- Runs.Run: assumes the rules of one-sided communication (section 11.7 of MPI-3.1): gets in progress have disjoint origins which the application leaves alone, and the remote bytes they fetch do not change.  A doubtful key stays so until it is evicted, invalidated or cached anew, even if its bytes happen to be right.  After an exit of the program nothing is said about its memory.
- AvlTree.Tree.Insert: requires a free node, where the program would exit; NodeLeft and RoomForFreed show that the cache never gets there.
- ClampiCache.Cache.Get: when 64 copies are pending already the program exits; the outcome Exited stands for that, and nothing is said about the cache afterwards.
- Penalties, the SCORE formula and the moving average: the scores are a parameter of Get, any function of the slot, and the victim is the least under it; how the program computes them is not modelled.
- Random numbers: start table and start of the scan are arbitrary numbers in range; H is at least 4.
- Machine widths: sizes, offsets and the get counter are unbounded, so the wrap-around of the counter, whose zero marks an empty slot, is not modelled.
- The union of get_info and size in a descriptor: two fields here, of which the length of a region reads the one that is current.
- The adaptive scheme of src/clampi_adaptive.c, which rebuilds the cache with new sizes; the statistics counters; the failure code of builds without statistics.
- Mode parsing in src/clampi_win.c: the mode is a parameter.
- The copy loop in assembly, freeing a window, reading the environment, printing, and tree functions that the cache does not use.
