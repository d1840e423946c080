# A verified model of the disk B+ tree engine

This project models a small storage engine written in C and proves, in Dafny, what its layers
promise. The layers, bottom up:

1. **Page bytes** (`PageBytes`, `SlottedPage`, `Records`): a 4096-byte page with a slot directory
   growing up from byte 32 and records growing down from byte 4096, edited in place. It behaves as
   a sequence of records, and the bytes hold exactly the pages the tree code works with
   (`TreeImages`).
2. **B+ tree** (`Pages` to `Runs`): the tree over a store of pages, split, propagation, merge and
   root shrink included, and the doubly linked leaf chain. A tree is described level by level: each
   level is what one gets by replacing every page of the level above by its children. Separators,
   key ranges, equal leaf depth and disjointness follow from that one equation (`Levels`), and the
   levels are determined by the pages (`TreeFacts.LevelsUnique`). Comparators are arbitrary strict
   total orders, `compare_default` being one.
3. **Cursors** (`Cursor`): descent, seek, and walking the chain in both directions.
4. **Buffer pool** (`Bits`, `HashTable`, `Recency`, `Storage`, `PoolSteps`, `BufferPool`): a
   write-back LRU cache indexed by open addressing with tombstones. `PooledTree` puts it under the
   tree: callback by callback it answers as the tree's own store, and after a flush the store below
   is the same tree.
5. **Write-ahead log** (`Wal`): redo recovery from a log cut at any byte.
6. **Transactions** (`Txn`): interleavings under the read/write lock.

The main results are `BTree.Put` and `BTree.Delete` (each with the exact condition under which the
code does what a map does), `Runs.Run`, the three scans of `Cursor`, `SlottedPage.RemoveSlot` and
`InsertSlot`, `BufferPools.Serve`, `WriteAhead.CrashAnywhere` and `Transactions.Serializable`.

## Where the code does less than one expects

- **Splits halve by number, not by bytes**, and refused appends go unnoticed. `Put` is proved for
  all inputs: its result is a well-formed tree with the key put in if and only if `PutFits` held
  before, which a caller can compute from the pages on the key's path. Entries and separators that
  differ little in size always meet it, for any bounds (`Runs.EvenPutFits`); so do all entries of at
  most 126 bytes of key and value (`Runs.SmallPutFits`). `Witnesses.UnevenPut` is a tree and a put
  that do not. Part of `PutFits` is that both halves of an internal page keep a separator, which
  only a page of one separator can fail; searches are right even then. `PutRefills` says of every
  put whether all refilled pages have room, some record is dropped, or a slot lies over its own
  record, and in the first two cases that decides whether searches are right.
- **Internal pages are merged like leaves**, which drops the right page's first child. `Delete` is
  proved for all inputs: later searches are right if and only if `DeleteSafe` held before.
  `Witnesses.NarrowDelete` is a tree and a key where it does not hold.
- **page_alloc_slot does not count the slot it adds.** `SlottedPage.AllocSlot` says exactly when the
  page it leaves is well formed. When fewer than four bytes are left for the slot, it is written
  over the first bytes of its own record, and `PackedRecords.SlotOverRecord` says exactly when that
  record can still be read. `Witnesses.OverlapPut` and `OverlapBytes` are a put that loses its key
  that way.
- **Page 0 is also "no page".** Forward scans are unaffected; a backward scan misses the leftmost
  leaf if and only if that leaf is page 0 and not alone (`Cursors.Cursor.ScanReverse`).
- **ht_insert does not look for the page it enters.** Entering a page twice leaves no table of any
  map, which `HashTable.Insert` states as an equivalence; the pool never does it.
- **bp_write caches pages that do not exist.** The view then has a gap that reads of it fail on
  until a flush fills it; `BufferPool.Write` and `Read` say so, and the tree never does it.
- **A torn log tail that recovery reported stays in the file.** Entries appended after it are not
  read back as written (`WriteAhead.AppendSafeIffWhole`).
- The repository's README says that slots grow down and records up, that puts and deletes mark old
  records as deleted, and that space is reclaimed when a page is less than half full. The code does
  the opposite of the first, removes records physically, and merges leaves of fewer than two
  records; the model follows the code.

## Model

| member | source | states |
|---|---|---|
| `Comparator.CompareDefaultIsOrder` | src/comparator.c:5-18 | the default comparator is a strict total order: 0 on equal keys only, antisymmetric, transitive |
| `Comparator.Lexicographic` | src/comparator.c:5-18 | a key is less exactly if it is a proper prefix or has the lesser byte at the first difference; in particular a proper prefix comes before its extensions |
| `Pages.InsertFitsIffFits` | src/page.c:63-72 | the insert check refuses exactly the records that would make directory and records meet |
| `Search.UpperSearch` | src/btree.c:661-675 | the binary search finds the number of separators at most the key |
| `Search.InternalFindChild` | src/btree.c:115-137 | the child returned is the one whose separators bracket the key |
| `Search.LeafFindKey` | src/btree.c:143-160 | the slot of the key, or the complement of the only place that keeps the leaf sorted |
| `Search.MergeSorted` | src/btree.c:76-108 | the record is inserted at that place and nothing else changes |
| `Search.FindPosInParent` | src/btree.c:220-232 | -1 for the first child, the first record naming the child, or -2 when no record does |
| `Descent.PathPlaces` | src/btree.c:178-198 | the path of a key visits one page per level, the one whose key range holds the key |
| `Descent.LookupIsContents` | src/btree.c:432-458 | a search from the root finds a key exactly when some leaf holds it, with that value |
| `Contents.RecordsSorted` | src/btree.c:524-584 | read left to right, the records of all leaves are strictly sorted |
| `Height.HeightBound` | src/btree.c:178-198 | 32-bit page numbers and a separator per internal page bound the height by 33, so a path never passes its 64 entries |
| `Fitting.FillOutcome` | src/btree.c:563-584 | refilling a page: up to 4064 bytes with slots everything is kept; only up to four more can be kept, and then page_alloc_slot let directory and record overlap; otherwise records are lost |
| `Fitting.KeptFacts` | src/btree.c:563-584 | the records a refilled page takes are fewer than it was given, or all of them in order; at most the last one lacks room for its slot, by one to four bytes, and then the slot lies over its first bytes |
| `Fitting.KeptStep` | src/btree.c:563-584 | a refusal does not end the refilling: each record is taken exactly if its bytes still find room, its slot not counted |
| `Fitting.EvenLeafHalves` | src/btree.c:524-584 | if every entry costs between m and M bytes with its slot and floor(count / 2) * m >= M, both halves of a leaf that one entry too many overfills fit, for all m and M |
| `Fitting.EvenInternalHalves` | src/btree.c:694-754 | the same for an internal page of at least three records with the median taken out, and both halves keep a separator |
| `Fitting.EvenAscent` | src/btree.c:620-766 | and for every split that one put causes on its way up, when m and M are so close that this holds for every page with one record too many |
| `Fitting.SmallLeafHalves` | src/btree.c:540-584 | its instance for entries of at most 126 bytes, in any mix of sizes |
| `Fitting.SmallInternalHalves` | src/btree.c:703-754 | its instance for the separators of such entries |
| `Fitting.UnevenSplitLoses` | src/btree.c:540-584 | a leaf of two small and two large records that a third large one splits: the right half does not fit and a record is gone |
| `Fitting.PutFitsWhole` | src/btree.c:563-584 | a put whose splits leave a well-formed tree refills no page with more than its room |
| `Witnesses.UnevenPut` | src/btree.c:540-584 | as a tree: a well-formed tree of that one leaf, and a put into it that does not fit and drops a record |
| `Witnesses.OverlapPut` | src/btree.c:563-584 | a well-formed tree of one leaf and a put whose right half ends with two bytes for its last slot |
| `Witnesses.OverlapBytes` | src/page.c:44-58 | in the bytes of that half the record of the key [3] has key length 2062, its own length: it cannot be read, and under compare_default [3] sorts before what stands there |
| `SplitSteps.LeafSplitShape` | src/btree.c:552-607 | a leaf split keeps order, key ranges, depth, disjointness, parent fields and the leaf chain, with the new leaf pending |
| `InternalSteps.InsertShape` | src/btree.c:670-683 | taking up a pending page completes the tree |
| `InternalSteps.CutShape` | src/btree.c:694-756 | cutting an internal page keeps the whole shape, every moved child naming the new page, with the new page pending one level up |
| `RootSteps.GrowShape` | src/btree.c:622-646 | a new root above two pages completes the tree, one level higher, both children naming it |
| `RootSteps.ShrinkShape` | src/btree.c:331-350 | a root without separators gives way to its only child without loss |
| `MergeSteps.MergeShape` | src/btree.c:297-326 | a leaf merge keeps the whole shape, the right leaf gone from chain and parent |
| `MergeSteps.MergeRecords` | src/btree.c:297-305 | a leaf merge keeps all records in order |
| `Climb.ClimbInsert` | src/btree.c:676-683 | the propagation ends in a full tree with the same records when the parent has room |
| `Climb.ClimbCut` | src/btree.c:685-765 | otherwise its invariant holds again one level up |
| `Climb.ClimbGrow` | src/btree.c:622-646 | and past the root it ends in a full tree, one level higher |
| `TornSplits.CutForces` | src/btree.c:703-754 | a put that cut an internal page can only end with a well-formed tree if both halves fitted and kept a separator, whatever it does afterwards |
| `TornSplits.LeafCutForces` | src/btree.c:540-584 | a put that cut a leaf can only end with a tree of the right entries if both halves fitted |
| `Drift.DriftCut` | src/btree.c:685-765 | after a split that lost something, further splits leave the torn pages and everything below them alone |
| `Drift.CutNoTree` | src/btree.c:703-754 | a torn internal page leaves a store that is no tree under any reading of its levels |
| `Drift.RootNoTree` | src/btree.c:622-646 | so does a new root without room for its only record |
| `Drift.LeafNotIntact` | src/btree.c:540-584 | a torn leaf leaves no tree with the key added |
| `Ascents.NextCourse` | src/btree.c:685-765 | one round of the propagation, sound or torn, leads to the next |
| `Sight.InnerDropSeals` | src/btree.c:703-754 | a separator dropped from an internal page cuts off a leaf: some stored key is found from no page outside |
| `Sight.LeafDropSeals` | src/btree.c:563-584 | a record that neither half of a leaf kept is found nowhere |
| `Sight.SightNext` | src/btree.c:685-765 | one round of the propagation, if no slot on the way up is written over its record: as long as nothing is dropped every key stays in sight, and a key once out of sight stays so |
| `BTrees.BTree.Create` | src/btree.c:359-388 | a new tree is a well-formed, empty map |
| `BTrees.BTree.ReadPage` | src/storage.c:151-164 | the stored page, or an I/O error exactly when there is none |
| `BTrees.BTree.WritePage` | src/storage.c:166-195 | changes that page of the store only |
| `BTrees.BTree.AllocPage` | src/storage.c:197-218 | appends one empty page and returns its number |
| `BTrees.BTree.SetParentId` | src/btree.c:204-213 | changes the parent field of one page only |
| `BTrees.BTree.BuildPath` | src/btree.c:178-198 | ends, never fails, and returns the path of the key with at most 33 pages |
| `BTrees.BTree.Get` | src/btree.c:432-458 | OK exactly for the keys of the map, with the length of the value and as much of it as the buffer takes; NOT_FOUND otherwise |
| `BTrees.BTree.CollectRecs` | src/btree.c:530-536 | copies the records of a page |
| `BTrees.BTree.FillPage` | src/btree.c:563-564 | appends a range of the array with page_alloc_slot, ignoring its answers; the page lists the records as they were put in, and what can be read of a last one without room for its slot is in `PackedRecords.SlotOverRecord` |
| `BTrees.BTree.SplitLeaf` | src/btree.c:524-607 | both halves by number as page_alloc_slot takes them, the separator, and all four links, whether or not the halves fit |
| `BTrees.BTree.SplitInternal` | src/btree.c:685-756 | both halves without the median as page_alloc_slot takes them, the median's child first in the new page, every moved child's parent field |
| `BTrees.BTree.GrowRoot` | src/btree.c:622-646 | the new root's page, and the parent fields of its two children |
| `BTrees.BTree.Propagate` | src/btree.c:611-766 | ends in a tree with the same leaves if everything on the way fits, in no tree if something does not; searches are followed unless a slot is written over its record |
| `BTrees.BTree.SplitAndPropagate` | src/btree.c:520-766 | the split branch of a put: a tree with the key put in if and only if all halves fit; the right searches if and only if nothing is dropped, unless a slot is written over its record |
| `BTrees.BTree.Put` | src/btree.c:489-771 | at any height: the result is a well-formed tree with map `m[key := val]` if and only if every page to be split can be halved by number (`PutFits`, computable beforehand); then the leftmost leaf is the same page; unless a page refilled on the way ends with a slot over its own record, every later search agrees with `m[key := val]` if and only if every such page has room for its records (`PutRefills`, computable too) |
| `BTrees.BTree.RebalanceLevel` | src/btree.c:240-326 | one round of the rebalancing: a leaf of fewer than two records or an internal page of none is merged exactly if it fits in one page with its left sibling, or with its right one if it is a first child; the right page of the two is given up |
| `BTrees.BTree.MergePages` | src/btree.c:297-326 | the pages after a merge, links and parent included |
| `BTrees.MergeTest` | src/btree.c:288-295 | the merge test is exactly that all appended records fit with their slots |
| `BTrees.BTree.RebalanceAfterDelete` | src/btree.c:235-353 | leaf merges and root shrink keep every record if no internal page below the root runs out of separators; if one does, some stored key can no longer be found; the new store is that of the rounds and the root's step, and they touch no other leaf |
| `BTrees.BTree.Delete` | src/btree.c:460-487 | NOT_FOUND and no change for absent keys; for a stored key all later searches agree with the map without it if and only if `DeleteSafe` held before, and then the tree is well formed with map `m - {key}` and the same leftmost leaf; a leaf left with fewer than two records goes to its left sibling's page, or takes in its right sibling if it is a first child, exactly if both fit, and nothing else happens if not |
| `Deletion.TreeMergeable` | src/btree.c:255-286 | on the path of a key a page always has a sibling to merge with |
| `LostChild.InnerMergeLoses` | src/btree.c:288-326 | merging an internal page like a leaf cuts off a leaf that holds records |
| `LostChild.SealedLookup` | src/btree.c:115-137 | a key outside the pages still linked is not found |
| `LostChild.LosingStep` | src/btree.c:240-326 | no later round of the same rebalancing brings the lost key back |
| `Witnesses.NarrowDelete` | src/btree.c:240-353 | a well-formed tree of seven pages and a stored key whose delete meets such a merge |
| `Rebalance.OneEmpty` | src/btree.c:288-295 | a sibling of an empty page always passes the merge test |
| `Runs.SmallPutFits` | src/btree.c:489-771 | in a tree of entries of at most 126 bytes every put of such an entry meets `PutFits` |
| `Runs.EvenPutFits` | src/btree.c:489-771 | in any well-formed tree a put meets `PutFits` if the entries of its leaf and the separators on its path are even in the sense above, for any bounds |
| `Runs.Perform` | src/btree.c:432-518 | one operation answers as on a finite map in any case: a get finds the stored value or nothing, a delete tells whether the key was there; it acts as on a map exactly when it is safe, and searches after an unsafe one are right exactly when it dropped nothing |
| `Runs.Run` | src/btree.c:359-518 | a whole run agrees with a finite map reply by reply, up to the first unsafe operation and its reply; what the store is then, a tree or not, and what searches find; the leftmost leaf never changes; with small entries only a delete can be unsafe |
| `TreeFacts.LeavesDepthFirst` | src/btree.c:552-607 | a depth-first walk from the root meets the leaves of the chain in chain order, all at the same depth |
| `TreeFacts.LevelsUnique` | src/btree.c:359-388 | the levels of a tree are determined by its pages: the ghost state adds nothing |
| `TreeFacts.NextChain` | src/btree.c:552-607 | following next_id from the leftmost leaf visits the tree's leaves in order, once each, and ends, page 0 or not |
| `TreeFacts.PrevChain` | src/btree.c:593-607 | following prev_id from the last leaf is the mirror image if and only if the leftmost leaf is alone or not page 0; otherwise only that leaf is missing |
| `TreeFacts.LiveLeaves` | src/btree.c:479-483 | no record reachable from the root carries a deletion mark, no leaf is empty unless it is the whole tree |
| `Cursors.Cursor.constructor` | src/cursor.c:149-158 | starts on no record |
| `Cursors.Cursor.IsValid` | src/cursor.c:344-347 | true exactly while the cursor is on a record |
| `Cursors.Cursor.AdvanceToNext` | src/cursor.c:97-118 | the first record of the next leaf, or the end |
| `Cursors.Cursor.AdvanceToPrev` | src/cursor.c:121-143 | the last record of the previous leaf, or the end when prev_id is 0 |
| `Cursors.Cursor.Next` | src/cursor.c:278-289 | one record forward in key order |
| `Cursors.Cursor.Prev` | src/cursor.c:291-302 | one record back, unless the records before are hidden behind page 0 |
| `Cursors.Cursor.GetRecord` | src/cursor.c:308-338 | key and value of the current record, cut to the buffers, with their full lengths |
| `Cursors.Cursor.First` | src/cursor.c:200-230 | the smallest key of the map, or NOT_FOUND on an empty tree |
| `Cursors.Cursor.Last` | src/cursor.c:232-272 | the largest key of the map, or NOT_FOUND on an empty tree |
| `Cursors.Cursor.DescendToLeaf` | src/cursor.c:31-73 | the leaf whose range holds the key |
| `Cursors.Cursor.Seek` | src/cursor.c:169-198 | the smallest key of the map that is at least the one sought, or NOT_FOUND if there is none |
| `Cursors.Cursor.ScanAll` | src/cursor.c:200-289 | first and next give exactly the entries of the map, in strictly increasing key order, and end |
| `Cursors.Cursor.ScanFrom` | src/cursor.c:169-289 | seek and next give exactly the entries with keys at least the one sought, in strictly increasing order |
| `Cursors.Cursor.ScanReverse` | src/cursor.c:232-302 | last and prev give, in strictly decreasing order, the entries of the map but those of a leftmost leaf that is page 0 and not alone: the whole map if and only if there is no such leaf |
| `Cursors.AllInOrder` | src/cursor.c:278-289 | what the scans return is sorted, and is the map |
| `PageBytes.PutU16Read` | src/page.h:101-111 | a 16-bit field is written alone and read back, truncated to 16 bits |
| `PageBytes.LittleEndian` | src/page.h:101-111 | 16-bit and 32-bit fields have their low byte first |
| `PageBytes.OpenSlotReads` | src/page.c:77-84 | the memmove and the new entry splice one slot into the directory |
| `PageBytes.CloseSlotReads` | src/page.c:99-106 | the memmove drops one slot from the directory |
| `PageBytes.InsertKeeps` | src/page.c:63-91 | insertion splices the record sequence and keeps the page well formed if and only if record and slot fit |
| `PageBytes.WriteBackStep` | src/page.c:140-147 | one round of the write-back loop puts one more record in its place and disturbs none |
| `PageBytes.Compacted` | src/page.c:138-150 | after the loop the page is well formed and holds the same records |
| `SlottedPages.SlottedPage.Init` | src/page.c:23-35 | an empty well-formed page with all links cleared |
| `SlottedPages.SlottedPage.AllocSlot` | src/page.c:39-61 | refuses exactly when the record does not fit without its slot; otherwise appends, and the page is well formed if and only if it fits with its slot |
| `SlottedPages.SlottedPage.InsertSlot` | src/page.c:63-91 | splices the record in, or returns -1 and changes no byte, exactly when index or space is wrong |
| `SlottedPages.SlottedPage.RemoveSlot` | src/page.c:93-151 | removes exactly that record and compacts: the records lie in slot order from the end of the page down, without gaps, lengths summing to 4096 - free_offset; a bad index changes no byte |
| `SlottedPages.SlottedPage.GatherRecords` | src/page.c:128-136 | the temporary buffer gets the records end to end |
| `SlottedPages.SlottedPage.WriteRecords` | src/page.c:138-147 | the records go back against the end of the page, header untouched |
| `SlottedPages.SlottedPage.GetSlot` | src/page.c:153-163 | the slot, or the empty slot for a bad index |
| `SlottedPages.SlottedPage.SlotData` | src/page.c:165-179 | the record, or nothing for an empty record or a bad index |
| `PackedRecords.RoundTrip` | src/page.h:122-201 | a packed record has the computed size, and every field of a leaf or internal record comes back from its bytes |
| `PackedRecords.PackLayout` | src/page.h:114-201 | where key length, key, value length, value, flag and child number of a record lie |
| `PackedRecords.ImageLayout` | src/page.h:14-60 | where type, counters, links and slots of a page lie, type 2 being a leaf and 1 an internal page |
| `PackedRecords.InitTreePage` | src/page.c:23-35 | page_init with type 2 gives the bytes of an empty leaf, with type 1 those of an empty internal page |
| `PackedRecords.ImageUnique` | src/page.h:26-39 | no bytes hold two different pages |
| `PackedRecords.InsertRecord` | src/page.c:63-91 | on the bytes of a tree page, insertion does what the tree code assumes, under the same test |
| `PackedRecords.RemoveRecord` | src/page.c:93-151 | and so does removal |
| `PackedRecords.AppendRecord` | src/page.c:39-61 | and so does appending, exactly while record and slot fit; otherwise the bytes are given outright |
| `PackedRecords.SlotOverRecord` | src/page.c:44-58 | a record taken without room for its slot: all earlier records can still be read, and the new one if and only if the slot holds the very bytes it was written over; with two bytes to spare its key length has become its own length and it never can |
| `PackedRecords.ImageIffFits` | src/page.c:4-19 | the pages that some 4096 bytes hold are exactly those whose fields fit their widths and whose records fit with their slots |
| `TreeImages.TreePageImage` | src/page.c:4-19 | every page of a well-formed tree has such bytes |
| `Bits.NextPow2` | src/buffer_pool.c:57-66 | the least power of two that is at least v, for 1 <= v <= 2^31; 0 for 0 and where it would need 33 bits |
| `Bits.MaskIsModulus` | src/buffer_pool.c:69-72 | masking with a power of two less one is the remainder |
| `HashTables.HashTable.HomeOf` | src/buffer_pool.c:69-72 | the masked hash is the hash modulo the table size |
| `HashTables.HashTable.SlotOf` | src/buffer_pool.c:79-85 | the masked probe index walks the table once round |
| `BufferPools.BpHashInverse` | src/buffer_pool.c:69-72 | the hash is a bijection on 32-bit page numbers, undone by the inverse of its multiplier |
| `HashTables.NotThere` | src/buffer_pool.c:79-93 | an EMPTY slot on the probe path, or a full round, proves a page absent |
| `HashTables.Occupy` | src/buffer_pool.c:96-112 | occupying the first free slot, tombstone or not, keeps every entry reachable and unique |
| `HashTables.Bury` | src/buffer_pool.c:115-130 | a tombstone keeps every other entry reachable |
| `HashTables.TwiceIsWrong` | src/buffer_pool.c:96-112 | a page entered twice makes the slots the table of no map |
| `HashTables.RoomLeft` | src/buffer_pool.c:95-112 | a slot is free if and only if there are fewer entries than slots |
| `HashTables.HashTable.Lookup` | src/buffer_pool.c:79-93 | agrees with a map from pages to frames, for any hash function |
| `HashTables.HashTable.Insert` | src/buffer_pool.c:96-112 | adds exactly one entry, in the first slot of the probe sequence that is not occupied, or nothing when the table is full; the result is the table of some map if and only if the page was absent or the table full |
| `HashTables.HashTable.Remove` | src/buffer_pool.c:115-130 | removes exactly that entry, turning its slot into a tombstone and no other |
| `Storage.StoreWriteLocal` | src/storage.c:166-195 | a write disturbs no other page, present or absent, if and only if it leaves no gap after the end |
| `PoolSteps.EvictsKeeps` | src/buffer_pool.c:141-179 | eviction changes no page that a reader can see |
| `PoolSteps.CountFrames` | src/buffer_pool.c:141-148 | never more cached pages than frames, and as many exactly when none is free |
| `PoolSteps.LruHit` | src/buffer_pool.c:252-259 | a hit keeps the frames the most recently used pages, in stamp order |
| `PoolSteps.LruMiss` | src/buffer_pool.c:262-281 | so does a miss, evicting the page unused for longest exactly when no frame is free |
| `Recency.RecentOrder` | src/buffer_pool.c:136-140 | the recency list holds exactly the pages used, each once, by last use |
| `Recency.ResidentMeans` | src/buffer_pool.c:136-140 | a page is among the cached ones exactly when fewer than capacity distinct pages were used after it |
| `Recency.HitsMonotone` | src/buffer_pool.c:247-259 | a larger pool never has fewer hits on the same trace |
| `BufferPools.BufferPool.constructor` | src/buffer_pool.c:185-229 | an empty pool whose table has the least power of two of at least twice the frames |
| `BufferPools.BufferPool.EvictOne` | src/buffer_pool.c:141-179 | the first free frame if there is one, else the first with the least stamp, written back if dirty; the view is unchanged |
| `BufferPools.BufferPool.UseFrame` | src/buffer_pool.c:252-259 | using a cached page changes the view at that page only, and makes it the most recent |
| `BufferPools.BufferPool.FillFrame` | src/buffer_pool.c:273-281 | so does bringing a page into the frame that eviction gave up |
| `BufferPools.BufferPool.Read` | src/buffer_pool.c:247-282 | returns the page as readers see it, fails exactly for pages neither cached nor stored, counts hit or miss; one frame changes, and the store only by the page that makes room |
| `BufferPools.BufferPool.Write` | src/buffer_pool.c:284-310 | the view changes as the store would, gap included: at that page only for a page that exists; the page waits in its frame, marked as modified |
| `BufferPools.BufferPool.Alloc` | src/buffer_pool.c:312-316 | adds one page at the end of the store, and of the view if only existing pages are cached |
| `BufferPools.BufferPool.Flush` | src/buffer_pool.c:322-337 | the store gets that page if it was modified, its mark goes; the view is unchanged |
| `BufferPools.BufferPool.FlushAll` | src/buffer_pool.c:339-354 | afterwards the store is the view and nothing is dirty |
| `BufferPools.Serve` | src/buffer_pool.c:247-310 | on a whole trace every read gives the page as last written before it, or as first stored; the pool ends with the most recently used pages, and its hit counter is the number of reads that found their page among them |
| `BufferPools.Compare` | src/buffer_pool.c:247-310 | the same trace through two pools: both hit counters are as specified, the larger pool's is no less, and it holds every page that the smaller one holds |
| `PooledTrees.ReadBoth` | src/buffer_pool.c:247-282 | as the read callback the pool answers as the tree's own store |
| `PooledTrees.WriteBoth` | src/buffer_pool.c:284-310 | as the write callback it keeps mirroring the tree's store |
| `PooledTrees.AllocBoth` | src/buffer_pool.c:312-316 | as the alloc callback it gives the page number that the tree expects |
| `PooledTrees.PathBoth` | src/btree.c:178-198 | build_path through the pool gives the path of the key |
| `PooledTrees.GetBoth` | src/btree.c:432-458 | btree_get through the pool answers from the tree's map |
| `PooledTrees.Checkpoint` | src/buffer_pool.c:339-354 | after bp_flush_all the store below is the same well-formed tree, and a search in it finds exactly the tree's entries |
| `WriteAhead.CutEntries` | src/wal.c:171-190 | a log cut at any byte gives exactly the entries complete before the cut |
| `WriteAhead.AppendEntry` | src/wal.c:139-155 | an entry appended to a whole log is read back |
| `WriteAhead.AppendSafeIffWhole` | src/wal.c:139-155 | for any log, torn header included: every next entry is read back as written if and only if the log ends at an entry boundary |
| `WriteAhead.ReplayAt` | src/wal.c:181-190 | page by page: the last image wins, other pages keep what was stored, gaps are zero |
| `WriteAhead.ReplayAgain` | src/wal.c:181-190 | a replay that stopped anywhere and is run again in full gives the same store |
| `WriteAhead.RecoveryRestarts` | src/wal.c:171-204 | so a recovery cut short can simply be repeated |
| `WriteAhead.CrashAnywhere` | src/wal.c:139-159 | stop a run of writes at any byte, with the store of that moment or of any earlier one: recovery gives every completed write, and the one in flight exactly when its entry was complete |
| `WriteAhead.Wal.constructor` | src/wal.c:49-113 | an empty file gets the header "WAL1", version 1 and zeros; any other is kept as it is |
| `WriteAhead.EntryLayout` | src/wal.c:171-190 | entry i lies at 32 + 4100 * i, its page number first |
| `WriteAhead.Wal.Write` | src/wal.c:139-159 | appends page number, low byte first, and page, then writes the page |
| `WriteAhead.Wal.Recover` | src/wal.c:171-204 | replays exactly floor((size - 32) / 4100) entries, the last image of a page winning; CORRUPTED, with the log left alone, if and only if 4 or more bytes remain; otherwise a fresh log of 32 bytes |
| `WriteAhead.Wal.NumEntries` | src/wal.c:210-218 | what a recovery would replay, as a 32-bit number |
| `Transactions.LockedNext` | src/txn.c:16-53 | the lock counts the active transactions; a writer excludes all others |
| `Transactions.Admission` | src/txn.c:16-32 | a reader is admitted next to readers only, a writer next to nobody |
| `Transactions.Serializable` | src/txn.c:16-93 | every interleaving the lock admits gives the map and the answers of running the transactions one at a time in the order in which they got the lock, aborted ones included |
| `Transactions.Snapshot` | src/txn.c:59-93 | a read-only transaction gets all its answers, scans included, from one map |
| `Transactions.Txn.constructor` | src/txn.c:16-32 | starts active, with the lock held |
| `Transactions.Txn.Commit` | src/txn.c:34-43 | gives up its own hold on the lock, keeps the map and ends the handle; NOT_FOUND for a null handle |
| `Transactions.Txn.Abort` | src/txn.c:45-53 | the same without an answer: what the transaction wrote stays |
| `Transactions.Txn.Call` | src/txn.c:59-93 | NOT_FOUND for a null handle; a get answers from the map and leaves it; in a read-write transaction a put and a delete change it as they should and say so, in a read-only one they answer CORRUPTED and change nothing |
| `Transactions.SharedTree.Unlock` | src/btree.c:428-430 | releases the lock whichever way it is held |

## Left out

- BTrees.BTree.Put: asks that the record and its separator fit the two page-sized buffers the code packs them into; 34 free page numbers must be left, and calls to the store succeed. When a slot is written over its own record (`PutRefills` is `Overlaps`), what searches find is not said: the overwritten length fields send the reader to other records or past the page. `PutFits` is false then and no tree with the right map results, and `PackedRecords.SlotOverRecord` gives the page's bytes.
- BTrees.BTree.FillPage: a page lists records as they were put in, the last one even where its slot overwrites it; no claim about searches is made from such a page.
- BTrees.BTree.SplitLeaf: the same, for either half.
- BTrees.BTree.SplitInternal: the same, for either half.
- BTrees.BTree.GrowRoot: the same, for the new root's only record.
- BTrees.BTree.WritePage: page numbers past the end of the store, which the tree never writes; `Storage.StoreWriteLocal` says what the store does then, and a page of zero bytes is no page of a tree.
- Runs.Run: stops after the first unsafe operation; later ones would work on a store that is no well-formed tree.
- BTrees.BTree.Get: comparators that return 0 on different keys are not covered; the tree's keys would not be a map's keys then.
- PooledTrees.Checkpoint: of the tree's methods only build_path and btree_get are proved again with a pool under them; that put and delete run over it too rests on the three callbacks mirroring the store call by call.
- BufferPools.BufferPool.Read: the recency order is claimed for fewer than 2^32 accesses, and not after a failed read, which may have evicted a page for nothing; transparency holds always.
- WriteAhead.CrashAnywhere: a page write to the store is one step; torn data pages, fsync and the order of log truncation after recovery are not part of this model.
- Transactions.Txn.Call: commit and abort free the handle, so only live handles and the null handle are modelled; a cursor's reads are a function of the map at that moment, which `Cursors.Cursor.ScanAll` and the other scans justify; a cursor kept open across writes of its own transaction, whose page copy may be out of date, is not modelled.
- Transactions.Serializable: tree operations are atomic steps on a map, which `Runs.Run` justifies for safe operations; that the lock is fair, and memory visibility between threads, are not part of this model.
- SlottedPages.SlottedPage.AllocSlot: an empty record on a page whose directory already reaches byte 4096 is excluded; the code would write past the page, and no record of the tree is empty.
- PackedRecords.ImageUnique: the page_id header field and the reserved bytes are not part of a tree page, and first_child_id of a leaf has no meaning.
- Crash atomicity of a whole tree operation, rollback and checksums: the code offers none; the root page number is not logged.
- Thread safety of the buffer pool and of the shared file handle: the code offers none.
- Failures of malloc, and of store calls in the middle of a put, which leave a half-linked split.
- Merging internal pages as a correct operation: the code does not implement it.
- src/storage.c beyond an array of pages that grows, src/main.c, src/leaderboard.c, src/test.c: plumbing, console, a thin application with easy sorting facts, finite tests.
- btree_open, getters and destructors: nothing to state beyond their fields.
