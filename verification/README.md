# A verified model of the page store and the libraries around it

The repository's servers keep their data in an embedded database, `cnet/common/db.h`, and lean on a
handful of small libraries: a timer wheel, a chunk allocator, a lock table, reference counters, a
write-behind cache, a bencode codec and two base64 codecs.  This project models their behaviour in
Dafny 4.11 and proves what they are for.  `dafny verify dfyconfig.toml` checks all of it.

**The page store.**  `PagePool` is the file's pages and its free list.  `IndexPages`, `TreeShape`,
`Windows`, `Coupling`, `Lending`, `Merging` and `IndexTree` are the B-tree: pages whose entries sit
in a sliding window, with a back-link from every page to its slot in its parent.  `TreeShape` proves
the operations on the tree as a value, `Windows` the copying loops inside a page, `Coupling`,
`Lending` and `Merging` that the pages hold the tree, and `IndexTree` puts them together in one
class that is updated in place.  `IndexWalk` iterates it and `IndexDepth` bounds its depth.
`Blocks` and `DataPages` are the data pages, tiled by blocks whose free ones hang on segregated
doubly linked lists.  `Records` writes keys and values over chains of blocks and reads them back.
`KeyOrder` compares keys, `PageStore` is the store that refines a map, and `PageHash` and
`PageCache` are the cache under it.

**Checkpoints.**  `LogFiles` lists the page writes of every step of the global logger, in order, so
that a crash is a prefix.  `CrashSafety` proves what a crash anywhere leaves and what recoveries, which
may crash too, make of it.  `TornCheckpoints` describes the crashes that can tear a checkpoint.
`NextCheckpoint` links one checkpoint to the next, `RecordTable` keeps the records of a log file within
their table and `LogHistory` past checkpoints in their log files.  `CheckpointLogger` is the logger
itself, proved to make exactly the writes listed, and `Service` runs it for any number of rounds.

**The libraries.**  `LockTable` (`cnet/common/lock.h`), `TimerWheel` (`cgame/common/timer.cpp`),
`FixAllocator` (`cgame/include/amemory.h`), `Reference` (`cnet/common/reference.h`), `WriteBehind`
(`cnet/common/cache.h`), `Bencode` (`cnet/common/variant.h`) and `Base64` (`win32/wperf.c` and
`cgame/common/base64.cpp`).

Code that changes things step by step is a class or an array method with loops; what it computes is
tied to a function or predicate on values, and the hard facts are lemmas about these.

## Findings

Properties that the code does not have in general, with an input and the exact condition.

| what fails | input | it holds exactly when |
|---|---|---|
| A crash leaves all tables at one checkpoint | the first checkpoint of two new tables: `TornCheckpoints.FirstCheckpointTears` | a changed table behind the first that names no log file is the only table changed: `TornCheckpoints.ExactlyWhen` |
| Eviction spares the page used last when one page is to be kept | one dirty page, one clean one used later: `PageHash.MostRecentMayGo` | the page is dirty or fewer of the others are dirty than are to be kept: `PageHash.MostRecentGoes` |
| What the cache shows survives an eviction | a page changed and copied, evicted before the copy is in the file: `PageCache.EvictedTooEarly` | every page evicted whose copy is still to be written, or was lost with a checkpoint that failed, is in the file as it was: `PageCache.EvictedShown`, and from the order of use before the call `PageCache.PageCache.Cleanup` |
| A value survives encoding and decoding | a negative number, a list with a missing value: `Bencode.NegativeLost`, `Bencode.MissingLost` | `Bencode.Sendable`: no negative number, no missing value in a list or as a key: `Bencode.RoundTrip` |
| A put to the write-behind cache is read back | a full cache that holds another value for the key: `WriteBehind.PutNotSeen` | the cache has room, or does not hold another value for the key: `WriteBehind.Cache.Put`, `WriteBehind.PutPast` |
| Lock ends | two roles in a circle, and a third asks one of them: `LockTable.WithoutDiscipline`; not so when it asks a fourth: `LockTable.CircleElsewhere` | the role waits already, the resource is free or its own, or its holder waits, over any number of others, for no role on a circle: `LockTable.EndsExactly`, `LockTable.CanAsk`; withdrawing after each DEADLOCK ensures it: `LockTable.RunsStayAcyclic` |
| Padding is taken in the last group only, as a comment in `cgame/common/base64.cpp:107` says | "QQ==QQ==": `Base64.PaddingInside` | the length is no multiple of four, or some group is bad by itself, or no group before the last ends in padding: `Base64.PaddingLast` |
| A key that was put is found again | the empty key: an entry with it answers no key | the key is not empty: `KeyOrder.Compare` |
| next_key gives the key behind | any key below all keys of the store: `PageStore.Store.NextKey` | the key is in the store, or its place is behind all keys of a leaf and the word read there is zero: `PageStore.Store.NextKey` |
| An assignment reads a handle that is still there | the last handle to an object takes over a handle inside that object: `Reference.Assign` | the handle read is not inside the object given up, or that has another handle: `Reference.Assign` |

## Model

| member | source | states |
|---|---|---|
| PagePool.PageAllocator.Alloc | cnet/common/db.h:1230-1244 | The page handed out was not in use: the first of the free list, or one more page at the end of the file. Each page of the file stays either in use or on the free list, once. |
| PagePool.PageAllocator.Free | cnet/common/db.h:1246-1251 | The page goes to the front of the free list; the list threaded through the free pages stays intact and no page is lost or listed twice. |
| TreeShape.SplitOrder | cnet/common/db.h:570-587 | Cutting a full page at its middle key and handing that key to the parent keeps the search tree: keys in strict order across pages, leaves on one level, each page the child of the one it names. |
| TreeShape.SplitHas | cnet/common/db.h:570-587 | A split neither adds nor loses an entry. |
| TreeShape.MergeOrder | cnet/common/db.h:646-677 | A page that takes the parent's key and all of its right neighbour leaves a search tree. |
| TreeShape.MergeHas | cnet/common/db.h:646-677 | A merge neither adds nor loses an entry. |
| TreeShape.SwapOrder | cnet/common/db.h:819-827 | Putting the last entry of the left subtree in place of an internal one leaves a search tree. |
| TreeShape.SwapHas | cnet/common/db.h:819-827 | That swap removes exactly the old internal entry. |
| TreeShape.GrowOrder | cnet/common/db.h:1254-1259 | An empty page above the root is still a search tree with the same entries. |
| TreeShape.CollapseOrder | cnet/common/db.h:689-697 | Dropping a root without keys in favour of its only child leaves a search tree with the same entries. |
| TreeShape.Reached | cnet/common/db.h:865-892 | Every page of the tree is reached from the root, child by child. |
| Coupling.SlideCoupled | cnet/common/db.h:701-817 | Sliding a window inside its page, with the back-links of the children moved along, leaves the pages holding the very same tree. |
| Coupling.FillGap | cnet/common/db.h:589-616 | Filling the gap with the middle key and its two children gives the parent its new node, leaves every other page as it was, and every back-link names the slot that points to its page. |
| Coupling.CutOthers | cnet/common/db.h:577-585 | After the upper half of a page went to its new neighbour, every page but the parent holds what the split tree says, back-links of the children handed over included. |
| Windows.CopyRightUp | cnet/common/db.h:594-599 | The loop that opens a gap: keys and right children of the range, copied from the last on, are all moved by the distance and each child knows its new slot; nothing else changes. |
| Windows.SlideLeft | cnet/common/db.h:626-645 | The loop that slides a window to the front of its page moves every key, every child and the last child, without overwriting one before it is copied. |
| Windows.SlideRight | cnet/common/db.h:768-781 | The loop that slides a window up, last entry first, moves every key, every child and the first child. |
| IndexTree.PageTree.constructor | cnet/common/db.h:1163-1181 | A new index is one leaf without keys and takes one page of the file. |
| IndexTree.PageTree.InsertFirst | cnet/common/db.h:908-916 | The first entry of an empty index is its only one, and the tree is well formed. |
| IndexTree.PageTree.InsertLeaf | cnet/common/db.h:918-940 | An entry put in its place in a leaf, with whatever cascade of splits follows, leaves a balanced, ordered, linked tree whose pages are filled within bounds, with exactly that entry more; just the pages taken by the index are taken from the file. |
| IndexTree.PageTree.InsertInternal | cnet/common/db.h:589-619 | A parent that takes a middle key between two children, and is split in turn when that fills it, leaves the whole tree well formed with the same entries. |
| IndexTree.PageTree.Split | cnet/common/db.h:570-587 | Splitting a full page, up to a new root if need be, ends with a well formed tree with the same entries. |
| IndexTree.PageTree.BorrowRight | cnet/common/db.h:706-730 | A short page with a richer right neighbour gets one entry through the parent, sliding to the middle first when flush right: the tree is well formed again, same entries, same pages. |
| IndexTree.PageTree.BorrowLeft | cnet/common/db.h:766-790 | The mirror image for a richer left neighbour. |
| IndexTree.PageTree.MergeNow | cnet/common/db.h:646-677 | Two neighbours become one page, the parent closes up on its shorter side, and the page set free goes back to the file. |
| IndexTree.PageTree.MergeSibling | cnet/common/db.h:621-699 | A merge with all that follows, a parent running short in turn or a root dropped, ends with a well formed tree with the same entries. |
| IndexTree.PageTree.Rebalance | cnet/common/db.h:678-688 | A short page evens out with its left neighbour when it is the last child, else with its right one; the tree is well formed afterwards. |
| IndexTree.PageTree.Shrink | cnet/common/db.h:701-817 | A short page borrows when its neighbour has more than the minimum and merges otherwise, in leaves and internal pages alike: well formed again, same entries. |
| IndexTree.PageTree.Collapse | cnet/common/db.h:689-697 | The root without keys is freed and its only child becomes the root. |
| IndexTree.PageTree.RightMost | cnet/common/db.h:823-824 | The walk down finds the last leaf entry in front of an internal entry. |
| IndexTree.PageTree.RemoveLeaf | cnet/common/db.h:829-854 | Removing a leaf entry, with whatever borrowing and merging follows, leaves a well formed tree with exactly that entry less. |
| IndexTree.PageTree.RemoveInternal | cnet/common/db.h:819-827 | Removing an internal entry by moving up the last one in front of it leaves a well formed tree with exactly that entry less. |
| IndexTree.PageTree.Remove | cnet/common/db.h:857-863 | Removing any entry keeps the tree ordered, linked and within bounds and drops exactly that entry; pages set free go back to the file. |
| IndexDepth.Depth | cnet/common/db.h:621-817 | An index whose leaves lie n levels below the root has at least 2 * 127^n - 1 entries, whatever was inserted and removed: its depth, and with it the pages a search reads, grows like the logarithm of their number. |
| IndexWalk.LeftMost | cnet/common/db.h:942-949 | The first entry of a subtree: the next key behind the lower end of its interval; none only in an empty index. |
| IndexWalk.Next | cnet/common/db.h:951-965 | From any entry the entry with the next greater key is found, down the right child or up the parents, and none only behind the greatest. |
| IndexWalk.GreatEqual | cnet/common/db.h:901-906 | The first entry whose key is not below the one searched for, or none when there is none. |
| IndexWalk.Complete | cnet/common/db.h:951-965 | A walk that came to the end has listed exactly the entries from its starting key on. |
| IndexWalk.OneFurther | cnet/common/db.h:951-965 | Each step of a walk adds the next key to a strictly ascending list that is never longer than the tree has entries, so that the walk ends. |
| Blocks.OnItsList | cnet/common/db.h:1290-1308 | Following the list of its capacity class from its head one comes to every free block. |
| Blocks.ListHolds | cnet/common/db.h:1290-1308 | And what one comes to on a list are free blocks of that class only. |
| Blocks.TakeOff | cnet/common/db.h:1262-1288 | Unlinking a free block at the head or inside its list leaves all lists as they should be but for that block. |
| Blocks.MergeTiled | cnet/common/db.h:2511-2526 | Two adjacent free blocks made one still tile the page without gap or overlap. |
| Blocks.ShortenTiled | cnet/common/db.h:1327-1346 | A block cut in two still tiles the page. |
| DataPages.PageInUse | cnet/common/db.h:1290-1308 | A page kept for data has at least one block in use. |
| DataPages.DataPages.ClrFragment | cnet/common/db.h:1262-1288 | The block leaves its list, changing links only; every other free block stays on exactly its list. |
| DataPages.DataPages.SetFragment | cnet/common/db.h:1290-1308 | A free block goes to the head of the list of its class, or, exactly when it is a whole page, its page goes back to the file. |
| DataPages.DataPages.GetFragment | cnet/common/db.h:1310-1325 | The block found was free and is, of all free blocks of the least class in which every block has room, the one that became free last; a page new to the data pages is taken exactly when there is none, or the size is that of a page or more. Blocks in use stay as they are. |
| DataPages.DataPages.AllocData | cnet/common/db.h:1348-1368 | A block in use with room for the bytes asked for or a page full, chosen so, and with no room behind them for another block; the pages in use change just when no free block could be used; all other blocks in use unchanged, and data pages tiled, coalesced and listed as before. |
| DataPages.DataPages.AdjustHead | cnet/common/db.h:1327-1346 | Room behind a block's bytes is cut off at the next multiple of 16, and joined with a free block behind it, exactly when it can hold a free header and its least room; the block keeps its bytes and nothing else changes. |
| DataPages.DataPages.FreeOne | cnet/common/db.h:2506-2528 | A freed block joins the free blocks on both sides; afterwards no two free blocks are adjacent, none is a whole page, and other blocks in use are untouched. |
| Records.RecordStore.CreateNode | cnet/common/db.h:1370-1422 | A key and a value of any lengths are written over a chain of blocks, whole pages and one block more that is no longer than need be; the record read back is exactly them, other records are untouched and every block in use belongs to one record. |
| Records.RecordStore.PutReplace | cnet/common/db.h:1441-1504 | The record gets the new value. It moves to new blocks exactly when its first block is too small for it, or for a page full of it; otherwise it stays, and its chain is the old one up to its own end, or the end of the old one, or the first block that is not a whole page and too small for what is left, with whole pages and one block more behind. Blocks no longer used are freed. |
| Records.RecordStore.FreeData | cnet/common/db.h:2503-2530 | Every block of the record is freed; all other records keep their keys and values. |
| Records.RecordStore.ExtractKey | cnet/common/db.h:2573-2597 | Reading the slices gives back the exact key. |
| Records.RecordStore.ExtractVal | cnet/common/db.h:2616-2633 | Passing over the key and reading the slices behind it gives back the exact value. |
| KeyOrder.WordOrder | cnet/common/db.h:2653-2679 | Subtracting two different little-endian words modulo 2^32, and looking at the lowest byte of the difference that is not zero with its borrow, gives the sign of the first bytes that differ. |
| KeyOrder.MemcmpFast | cnet/common/db.h:2653-2679 | The word-wise comparison has the sign of the bytewise one. |
| KeyOrder.LexTotal | cnet/common/db.h:2681-2719 | The order of keys is total, antisymmetric and transitive, and only equal keys compare equal. |
| KeyOrder.Compare | cnet/common/db.h:2681-2719 | For keys kept in the entry and long keys read from a chain of slices alike, the sign of the comparison is that of the lexicographic order; an entry with an empty key answers no key at all. |
| PageStore.Store.constructor | cnet/common/db.h:1163-1181 | A new store holds nothing. |
| PageStore.Store.SearchPage | cnet/common/db.h:871-885 | Binary search in the window of a page ends at the key, or where it would be, by comparisons of keys as the store makes them. |
| PageStore.Store.FindKey | cnet/common/db.h:865-892 | The descent from the root ends at the entry of the key, or at its place in a leaf. |
| PageStore.Store.Find | cnet/common/db.h:1528-1532 | What is found is exactly the map's value, or nothing. |
| PageStore.Store.Put | cnet/common/db.h:1506-1519 | For a key that is not empty the map changes at that key only: a new key is added, a known one replaced, or refused when replacing is not allowed; index, records and page accounting stay consistent. |
| PageStore.Store.Del | cnet/common/db.h:1609-1620 | The map loses exactly that key, or stays the same when it has none. |
| PageStore.Store.FirstKey | cnet/common/db.h:1540-1544 | The least key of the map, or none when it is empty. |
| PageStore.Store.NextKey | cnet/common/db.h:1546-1552 | The least key behind the given one, or none, exactly when that key is in the store or its place is behind all keys of a leaf; otherwise one key is skipped, and always so below all keys. |
| PageStore.Store.Walk | cnet/common/db.h:1554-1607 | A walk visits rows of the map in strictly ascending order, all those from its starting key on or all up to the one at which the visitor stopped it. |
| PageStore.Store.EveryPageOnce | cnet/common/db.h:1230-1308 | Each page of the file is exactly one of three: on the free list, an index page reached from the root, or a data page with a slice of the record of some key of the map. |
| PageHash.PageHash.Find | cnet/common/db.h:1131-1137 | Says whether the page is cached; then it is the most recently used. |
| PageHash.PageHash.Erase | cnet/common/db.h:996-1009 | The page leaves its chain and nothing else changes. |
| PageHash.PageHash.Insert | cnet/common/db.h:1106-1129 | The page enters a table that has more chains than pages before and after; all other pages are found as before and the new one is the most recently used. |
| PageHash.PageHash.Rehash | cnet/common/db.h:1111-1127 | With twice as many chains every page is in the chain of its index, none lost. |
| PageHash.InLruOrder | cnet/common/db.h:1035-1040 | The pages sorted by their stamps are the pages in the order of their last use, whatever chains they were collected from. |
| PageHash.PageHash.Cleanup | cnet/common/db.h:1031-1049 | Above the high mark clean pages go, least recently used first, until the low mark is reached; the ones kept stay in order with new stamps. |
| PageHash.KeptWhich | cnet/common/db.h:1041-1047 | Dirty pages stay, and of the clean ones the later; how many stay is given exactly. |
| PageHash.MostRecentGoes | cnet/common/db.h:1041-1047 | The most recently used page is evicted exactly when it is clean and at least as many of the others are dirty as are to be kept. |
| PageCache.PageCache.Load | cnet/common/db.h:1202-1223 | Reading a page through the cache gives its last contents, be it cached or in the file. |
| PageCache.PageCache.Write | cnet/common/db.h:1225-1228 | A page loaded for writing changes what the cache shows at that page only, and is dirty; a copy of it made for a checkpoint stays as it is. |
| PageCache.PageCache.Extend | cnet/common/db.h:1240-1243 | A page new to the file is shown as zero, and is cached and dirty. |
| PageCache.PageCache.SnapshotCreate | cnet/common/db.h:1074-1094 | Exactly the dirty pages, and the first page with them when there are any, are copied as they are and named once each, the first page last; nothing is dirty afterwards and nothing shown changes. |
| PageCache.PageCache.SaveNext | cnet/common/db.h:1650-1668 | The next copy, not what the page holds by now, goes to its page of the file; what is shown stays the same. |
| PageCache.PageCache.SaveAll | cnet/common/db.h:1696-1718 | Copies are written until all are or the file fails; only pages of the snapshot change in the file and nothing shown does. |
| PageCache.EvictedShown | cnet/common/db.h:1031-1049 | When clean pages go, what is shown stays as it was exactly when those of them are in the file as they were whose copies are still to be written or were lost. |
| PageCache.PageCache.Cleanup | cnet/common/db.h:1031-1049 | An eviction leaves what is shown as it was exactly when no page goes whose contents, copied for a checkpoint and not written yet or lost with one that failed, the file has not got. |
| PageCache.PageCache.SnapshotRelease | cnet/common/db.h:1096-1104 | Ends a snapshot, written or not: copies not written are lost, and the eviction that follows shows that exactly when one of those pages goes with contents that the file has not got. |
| PageCache.PageCache.Checkpoint | cnet/common/db.h:2969-2980 | However many of the copies get into the file: the file is what was shown when the checkpoint began but for pages that were lost, none of the new copies when all got there, and what is shown is the same exactly when no page lost goes with contents that the file has not got. |
| PageCache.ServeAll | cnet/common/db.h:1187-1244 | Over any run of reads, changes, new pages and evictions, and of checkpoints that begin, write copy after copy while clients go on, and end: the answers and what is shown are those of a plain map, and when no checkpoint is open the file is what was shown when the last one began. |
| PageCache.LastBegin | cnet/common/db.h:1187-1200 | What the file has after a checkpoint is the map as it was at its beginning, whatever was changed since. |
| PageCache.EvictedTooEarly | cnet/common/db.h:1031-1049 | Any page changed and copied, and evicted before the copy is written, as a walk while a checkpoint is open can do: it reads as it was before the change. |
| CrashSafety.PrepareDone | cnet/common/db.h:2070-2089 | After prepare the log file holds every snapshot where its header says, and is marked prepared; the tables are untouched. |
| CrashSafety.RotateDone | cnet/common/db.h:1968-1988 | A rotation ends with a log file that is loaded and open for a checkpoint. |
| CrashSafety.ReplayDone | cnet/common/db.h:1840-1859 | A table replayed from any state between its checkpoints is at the new one. |
| CrashSafety.StagingSafe | cnet/common/db.h:2003-2089 | A crash anywhere up to the last write of prepare leaves what recovery takes for the old state. |
| CrashSafety.CheckpointSafe | cnet/common/db.h:2070-2130 | A crash after any page write of a checkpoint, with or without rotation, leaves a state that recovery settles; a whole checkpoint leaves all tables new. |
| CrashSafety.RecoveryKeepsSafe | cnet/common/db.h:2023-2110 | A recovery cut short after any page write leaves such a state again; run to its end it leaves all tables old or all new, and what was new stays new. |
| CrashSafety.Atomic | cnet/common/db.h:2023-2130 | Wherever a checkpoint crashes and however often the recoveries after it crash, in the end all tables are at the old checkpoint or all at the new one, and a checkpoint that got through is not lost. |
| CrashSafety.RedoSame | cnet/common/db.h:2091-2110 | A redo cut short anywhere and run again ends at the very files of one that got through at once. |
| TornCheckpoints.Outcomes | cnet/common/db.h:2091-2110 | For every crash, tables without a log file id included: in the end all tables are old, or all new but some behind the first that name no log file. |
| TornCheckpoints.TwoTear | cnet/common/db.h:2098-2100 | If a changed table behind the first names no log file and another table is changed too, some crash, once recovered from, leaves the tables neither all old nor all new. |
| TornCheckpoints.FirstCheckpointTears | cnet/common/db.h:2098-2100 | The first checkpoint of two new tables, a page each, can be torn. |
| TornCheckpoints.ExactlyWhen | cnet/common/db.h:2023-2130 | No crashes can tear a checkpoint exactly when a changed table behind the first that names no log file is the only one changed. |
| NextCheckpoint.CheckpointRests | cnet/common/db.h:2070-2130 | A checkpoint that gets through leaves every table naming its log file, and the logger remembering that file as it is, open for the next checkpoint. |
| RecordTable.CheckpointFits | cnet/common/db.h:2003-2130 | A checkpoint that begins a new log file or finds room in the old one never writes a header with a record behind the record table. |
| RecordTable.RecoverFits | cnet/common/db.h:2023-2110 | Nor does a recovery: the record it closes or gives up is one of the table. |
| LogHistory.PastKept | cnet/common/db.h:1968-2130 | Every checkpoint that got through stays in its log file, under its number, with its time and all it held, when later ones get through; a new log file starts with the first of its own, and the one before it names it and keeps what it had. |
| CheckpointLogger.GlobalLogger.constructor | cnet/common/db.h:2019-2021 | A fresh logger has no log file and knows the log file ids of the tables. |
| CheckpointLogger.GlobalLogger.InitLogFile | cnet/common/db.h:1968-1988 | Makes exactly the writes of a rotation, in order, or those before the first that fails, under an id later than the last time stamp. |
| CheckpointLogger.GlobalLogger.CheckRotate | cnet/common/db.h:2003-2008 | Begins a new log file, under a later id, unless no table calls for one, the record table has room and the file is not too long; got through, there is room for a record. |
| CheckpointLogger.GlobalLogger.Prepare | cnet/common/db.h:2070-2089 | Makes exactly the writes of staging a checkpoint, or those before the first that fails, in the log file at hand just when no table calls for a new one, its record table has room and it is not too long; what is prepared is a record of the table. |
| CheckpointLogger.GlobalLogger.SaveTable | cnet/common/db.h:1830-1838 | Writes the snapshot of a table page by page and then the page that says where it is. |
| CheckpointLogger.GlobalLogger.CommitTable | cnet/common/db.h:1840-1859 | Writes the first page with the new log file id, the saved pages, and the saved first page with id and time, in this order. |
| CheckpointLogger.GlobalLogger.Commit | cnet/common/db.h:2112-2130 | Brings all tables up to date and closes the record, write by write as specified. |
| CheckpointLogger.GlobalLogger.RedoLog | cnet/common/db.h:2091-2110 | The same from a log file found prepared, passing over tables that name no log file. |
| CheckpointLogger.GlobalLogger.LoadLogFile | cnet/common/db.h:1948-1966 | What is loaded is what the log file holds. |
| CheckpointLogger.GlobalLogger.IntegrityVerify | cnet/common/db.h:2023-2066 | Answers REDO exactly when the newest log file ends with a prepared record; else makes exactly the writes of a recovery, and when they get through a record begun is given up and the logger is fit for checkpoints. A new log file is called for exactly when some table names one and another none. |
| CheckpointLogger.GlobalLogger.Checkpoint | cnet/common/db.h:2969-2980 | Makes exactly the writes of a checkpoint, in the same log file exactly when that has room; got through, it leaves the logger fit for the next one and all tables new; cut short anywhere, it leaves a state that recovery settles, and no log file with a record behind its record table. |
| CheckpointLogger.StartUp | cnet/common/db.h:2948-2965 | From every state a crash can leave, a start makes the writes of a recovery or those before the next crash; got through, all tables are old or all new, and without a redo the logger is fit for checkpoints. |
| Service.Serve | cnet/common/db.h:2948-2980 | Any number of runs, each with its checkpoints and its crash at any page write: what was reported done is in effect, what is in effect was begun, what was begun was asked for, all in order, and after a run that ended well the tables are exactly what the checkpoints in effect make of the first ones. No log file ever gets more records than it has room for. |
| LockTable.LockTable.Lock | cnet/common/lock.h:34-58 | Grants, notes the wait, or answers that it closes a circle, as `LockTable.AnswersMean`, `LockTable.ToldExactly` and `LockTable.ToldOnCircle` say, whenever the walk along the holders ends. |
| LockTable.AnswersMean | cnet/common/lock.h:34-58 | On any table: a role is told GRANT exactly when it does not wait afterwards, and then it holds the resource; one that is not told so waits, and for this resource, held by another, if it did not wait before. No other resource changes its holder and no other role its request. |
| LockTable.GrantedAlone | cnet/common/lock.h:34-116 | In every run, disciplined or not: a resource granted stays with that role, and no other is told GRANT for it, until that role gives it back. |
| LockTable.EndsExactly | cnet/common/lock.h:52-57 | The walk along the holders comes to an end, at the role that asks or at one that can go on, exactly when the holder asked for waits, over any number of others, for no role on a circle. |
| LockTable.LockTable.Unlock | cnet/common/lock.h:60-86 | Withdraws the request, or gives the resource back and names exactly the roles that wait for it. |
| LockTable.LockTable.UnlockAll | cnet/common/lock.h:88-116 | Withdraws the request of a role and gives back everything it holds, naming exactly the roles that wait for any of it. |
| LockTable.GivenBack | cnet/common/lock.h:60-86 | A resource given back is free and granted to the next role that asks and waits for nothing; a request withdrawn leaves all resources as they were. |
| LockTable.AllGivenBack | cnet/common/lock.h:88-116 | Afterwards the role holds nothing and waits for nothing; other roles hold and wait for what they did. |
| LockTable.NewWait | cnet/common/lock.h:52-57 | A new wait closes a circle exactly when the holder waits, over any number of others, for the new waiter. |
| LockTable.ToldExactly | cnet/common/lock.h:34-58 | DEADLOCK is answered exactly when the table holds a circle afterwards. |
| LockTable.ToldOnCircle | cnet/common/lock.h:34-58 | On any table, circles elsewhere or not: a role that did not wait before is told DEADLOCK exactly when it now waits, over others, for itself. |
| LockTable.WithdrawRestores | cnet/common/lock.h:60-86 | Withdrawing at once what was answered DEADLOCK restores the table. |
| LockTable.RunsStayAcyclic | cnet/common/lock.h:34-116 | In every run in which a role told DEADLOCK withdraws before the next request, no roles wait in a circle whenever nobody is told so. |
| LockTable.SomeoneCanGoOn | cnet/common/lock.h:34-116 | A wait that meets no circle leads to a role that can go on. |
| LockTable.Circle | cnet/common/lock.h:34-58 | Two roles that ask for each other's resource make the circle that is answered DEADLOCK. |
| TimerWheel.Wheel.SetTimer | cgame/common/timer.cpp:266-293 | A timer with first delay, interval and count as asked for is armed in a free entry, or refused when there is none; other timers are untouched. |
| TimerWheel.Wheel.RemoveTimer | cgame/common/timer.cpp:295-302 | Ends exactly the caller's own timer, if it is armed. |
| TimerWheel.Wheel.ChangeInterval | cgame/common/timer.cpp:338-362 | The caller's own timer, if it is armed, has the new interval, one at least, and is due that many ticks from now or at the next tick; others are untouched, and any other caller is refused. |
| TimerWheel.Wheel.TimerTick | cgame/common/timer.cpp:364-417 | Each timer due at the new tick fires exactly once and no other does; callbacks may remove or change their own timer, and one that is removed is gone; every entry stays in its bucket's list or on the free stack. |
| TimerWheel.FiresExactly | cgame/common/timer.cpp:266-293 | A timer set for n fires fires at exactly the ticks d, d + interval, ..., n of them, or for ever. |
| TimerWheel.FiresEvery | cgame/common/timer.cpp:266-417 | Due in d ticks with n fires to come, or for ever: it fires at exactly the ticks d, d + interval, ..., and each time its callback is told how many fires are left, or -1. |
| TimerWheel.NeverAgain | cgame/common/timer.cpp:304-316 | A timer that its callback removes, or that fired for the last time whatever its callback did, never fires again. |
| TimerWheel.ChangedFires | cgame/common/timer.cpp:338-417 | A timer with fires left whose callback changes its interval to c fires one tick later or max(c, 1) ticks later, as asked, then every max(c, 1), one fire less to come. |
| TimerWheel.FiresNext | cgame/common/timer.cpp:400-410 | A timer left alone by its callback fires again after its interval. |
| TimerWheel.Turn | cgame/common/timer.cpp:364-417 | Over any number of ticks, timers sharing lists and callbacks doing what they may: each timer fires at the ticks it would by itself, and nothing else is called. |
| FixAllocator.LowerBound | cgame/include/amemory.h:171-185 | Binary search finds the first chunk that does not end before the address. |
| FixAllocator.OneCell | cgame/include/amemory.h:91-120 | An address is that of one cell at most. |
| FixAllocator.FixAllocator.constructor | cgame/include/amemory.h:247-251 | A new allocator has one chunk, all free. |
| FixAllocator.FixAllocator.AllocNewChunk | cgame/include/amemory.h:153-161 | A new chunk's cells form one free list over all of it. |
| FixAllocator.FixAllocator.Alloc | cgame/include/amemory.h:252-267 | The cell handed out was not in use; malloc is asked exactly when the last free cell goes; the count of free cells, the sorted lists and the embedded free lists stay right. |
| FixAllocator.FixAllocator.FindChunk | cgame/include/amemory.h:171-185 | The search finds the listed chunk that holds an address, or says that none does. |
| FixAllocator.FixAllocator.FreeEmpty | cgame/include/amemory.h:272-285 | A cell of a chunk without free cells is found by binary search among those and the chunk goes back where it belongs among the others. |
| FixAllocator.FixAllocator.Free | cgame/include/amemory.h:269-293 | Exactly that cell is free again; its chunk goes back to malloc exactly when all its cells are free and more than two chunks' worth of cells are, and the list of chunks never runs empty. |
| FixAllocator.FixAllocator.RemoveChunk | cgame/include/amemory.h:204-225 | The chunk leaves the list, the last one or one found by binary search, and no cell in use is touched. |
| Reference.RunsKeep | cnet/common/reference.h:28-75 | In every interleaving of any number of threads the counters agree with the handles and threads there are. |
| Reference.Lifetimes | cnet/common/reference.h:38-56 | The object is destroyed at most once and not under a hard handle, the block deleted at most once and only when nothing uses it; when all handles are gone and all threads done, both have happened. |
| Reference.NeverTooLate | cnet/common/reference.h:38-75 | Whatever a thread can do next, the block is still there and the counters it takes down are not zero. |
| Reference.UpgradeOnlyAlive | cnet/common/reference.h:225-245 | An upgrade gives a hard handle exactly when there is one already; what was destroyed is never given out again. |
| Reference.ClearsUp | cnet/common/reference.h:38-56 | What a release has begun ends in three steps at most. |
| Reference.HandlesAfter | cnet/common/reference.h:28-75 | Each step gives or takes the one handle it is for and no other; an upgrade gives one exactly when there is a hard handle, and clearing up takes none. |
| Reference.Dropped | cnet/common/reference.h:38-56 | Dropping a handle and clearing up takes away that handle; the object is destroyed exactly when no hard handle is left, and the block deleted when none is left at all. |
| Reference.HandlesDecide | cnet/common/reference.h:28-75 | When nothing is pending the handles alone decide the counters and what was destroyed and deleted, so that a release run without interference ends where dropping the handle and clearing up does. |
| Reference.Assign | cnet/common/reference.h:115-134 | An assignment gives one block a handle less and the other one more, except exactly when the handle it reads is inside the object that it has just given up as the last one: then that handle is gone too. Either way the counters of both agree with the handles. |
| Reference.Block.HardRelease | cnet/common/reference.h:38-47 | Run without interference, the last hard handle destroys the object, and deletes the block when no weak handle is left. |
| Reference.Block.WeakRelease | cnet/common/reference.h:48-56 | Run without interference, the last weak handle deletes the block when the object is gone. |
| Reference.Block.HardRefCheck | cnet/common/reference.h:62-69 | Takes a hard handle unless the object is gone, and says which. |
| Reference.Block.WeakRef | cnet/common/reference.h:70-74 | One weak handle more and nothing else, the counters in agreement. |
| WriteBehind.Cache.Put | cnet/common/cache.h:523-547 | A put that the back end takes or that need not go there is seen unless the cache is full and holds another value for the key, and any other answers false and changes nothing; with write-behind and room the back end is not touched. The key is used now exactly when it was put into the cache. |
| WriteBehind.Cache.Get | cnet/common/cache.h:586-611 | What is read is what the plain map would give, cached or not, and cached when there is room; the key is used now exactly when there is a value. |
| WriteBehind.Cache.Remove | cnet/common/cache.h:613-626 | The key is gone from cache and back end, with the time of its use, and nothing else. |
| WriteBehind.Cache.SaveModified | cnet/common/cache.h:164-176 | Afterwards the back end is the plain map and nothing is marked. |
| WriteBehind.Cache.Discard | cnet/common/cache.h:258-280 | Exactly what was last used by the given time is dropped, written back first where it has to be; what is shown stays the same. |
| WriteBehind.Cache.DiscardRound | cnet/common/cache.h:282-293 | Exactly what was not used within the discard time is dropped, or within half of it when the rest is still more than the cache is to hold; what is shown stays the same. |
| WriteBehind.Cache.Clear | cnet/common/cache.h:501-512 | Everything is written and dropped; the back end is the plain map. |
| WriteBehind.Cache.SetSaveTimer | cnet/common/cache.h:197 | Turning write-behind on or off changes nothing shown and keeps the cache coherent. |
| WriteBehind.PutPast | cnet/common/cache.h:539-542 | A put past a full cache is seen exactly when the cache holds no other value for the key. |
| Bencode.RoundTrip | cnet/common/variant.h:59-70 | Decoding an encoded value, whatever follows it, gives it back and consumes just its bytes, exactly when it has no negative number and no missing value in a list or as a key. |
| Bencode.Decoded | cnet/common/variant.h:298-332 | Whatever text is decoded, the value has no negative number and no missing value in a list or as a key, so that it can be sent on, its dictionaries are in order with each key once, and its numbers and lengths are in their bounds; only the letter e is a missing value. |
| Bencode.AnyOrder | cnet/common/variant.h:236-248 | Pairs sent in any order make the dictionary that has them in order of their keys, all of them when the keys differ, and else the first of each key. |
| Bencode.StrExactly | cnet/common/variant.h:166-173 | A string is read, just as many characters as its length says, exactly when they are all there. |
| Bencode.Unclosed | cnet/common/variant.h:122-248 | At the end of a text the closing letter of a number, a list or a dictionary may be missing. |
| Bencode.TooLarge | cnet/common/variant.h:122-134 | A number of more than 63 bits is taken for the greatest one. |
| Bencode.Decoder.DecodeAtom | cnet/common/variant.h:298-332 | The decoder with its moving cursor decodes what the grammar says at the cursor and stops right behind it, or fails where the grammar does. |
| Bencode.Decode | cnet/common/variant.h:59-70 | A whole buffer: the value of its first atom, or no value. |
| Base64.EncodeBlocks | win32/wperf.c:108-166 | Six bytes, then three, then the rest at a time: the output is the encoding of section 4 of RFC 4648 and nothing behind it is written. |
| Base64.EncodeGroups | cgame/common/base64.cpp:48-89 | Three bytes at a time: the same output, a zero behind it, its length returned. |
| Base64.EncodedLength | cgame/common/base64.cpp:48-89 | The output is 4 * ceil(n / 3) characters. |
| Base64.DecodeRaw | win32/wperf.c:214-256 | Decodes any text as specified, group by group without checks, padding in the last group only. |
| Base64.RawInverts | win32/wperf.c:214-256 | Decoding what either encoder wrote gives the bytes back, whatever lies behind the decoder's table. |
| Base64.DecodeChecked | cgame/common/base64.cpp:91-127 | Decodes a text of good groups and answers -1 for every other. |
| Base64.CheckedInverts | cgame/common/base64.cpp:91-127 | Decoding what either encoder wrote gives the bytes back. |
| Base64.AlphabetRuns | cgame/common/base64.cpp:25-26 | The alphabet is that of section 4 of RFC 4648. |
| Base64.EncodedCanonical | cgame/common/base64.cpp:48-89 | What is written has zeros for the bits behind the last byte, and padding at its very end only. |
| Base64.EncodedAgain | cgame/common/base64.cpp:48-127 | Of all texts that decode to the same bytes it is the one of that kind. |
| Base64.Accepts | cgame/common/base64.cpp:91-127 | A text is taken exactly when its length is a multiple of four and every group is two digits followed by digits and then padding. |
| Base64.PaddingLast | cgame/common/base64.cpp:102-117 | A text is not taken with padding before its last group, exactly when its length is wrong, or some group is bad, or no group before the last ends in padding. |
| Base64.PaddingInside | cgame/common/base64.cpp:102-117 | "QQ==QQ==" is taken as two bytes. |

## Left out

Of the store:

- `cnet/common/db_win32.h`, a near copy of `db.h`; `PageLogger`; listing, restoring and removing old log files; monitors, browser and rebuild.
- The program after a redo: the source then loads a new logger without checking it, whose first page was never set. In the model a run ends after a redo and the next one starts up again.
- In the logger a write that fails while the program lives on is a crash; what such a checkpoint leaves in the cache is `PageCache.PageCache.Checkpoint`.
- Service.Serve: starts from tables of which all but the first name a log file, since the first checkpoint of new tables can be torn.
- Page writes are atomic and reach the files in program order, as the source's sync calls are meant to ensure; reads do not fail.
- A log file's pages are matched to the tables by position, not by name, and the record table's capacity is a constant of the logger. A header behind the last record of a log file reads as zero.
- The buffer for the first page of a table that has none yet is all zero here; in the source it holds whatever was in memory.
- PageStore.Store.Find: keys are shorter than 2^31 bytes and records than 2^32, as the stored lengths and their difference demand.
- PageStore.Store.Put: a key is not empty, since one that is would never be found again.
- PageStore.Store.NextKey: what lies behind the entries of a leaf is a parameter; when it is no zero, the page it names is not followed.
- The forms of put and del that also return the old value, and the variants of extract that allocate the result.
- The store works on maps of pages and blocks, which is what `PageCache.ServeAll` shows a client of the cache to see; it does not call the cache itself. Pages are values, so that two handles to one page are not modelled, nor the calls to set_dirty in the page code.
- Reading and writing a key or value copies bytes slice by slice; the copying itself is one assignment. The two layouts of a block header, in use and free, are separate fields.
- PageCache.PageCache.Write: marks the page and writes it in one step.
- PageCache.PageCache.SaveNext: the page is still cached; what the file gets for one that was evicted with its copy unwritten, and so deleted, is left out.
- PageCache.ServeAll: no eviction is asked for while a checkpoint is open; what one does then is `PageCache.PageCache.Cleanup`.
- Performance counters.

Of the libraries:

- TimerWheel.Wheel.TimerTick: callbacks touch at most their own timer. Timers without routine, reset, the jump after a stall, wrap-around of the tick and the spin lock are left out.
- FixAllocator.FixAllocator.Alloc: what malloc answers is a parameter that overlaps no other chunk and abuts none. Writes of users into cells in use are not modelled.
- LockTable.LockTable.Unlock: the order in which waiting roles are notified is not modelled.
- Reference.Lifetimes: each counter operation is one atomic step, as the lock around it makes it.
- WriteBehind.Cache.SaveModified: the back end takes what is saved and dropped; only a put can be refused. Stamps and in-place edits are left out.
- Bencode.RoundTrip: texts are shorter than 10^6 characters, as the encoder's length buffer demands, and numbers fit 64 bits. Bencode.Decode: an empty buffer, which the source reads past, is left out, as are declared lengths of 2^31 and more.
- Base64.DecodeRaw: the 128 bytes behind the decoder's table are a parameter. Null pointers are left out.
- Collision code, game filters, protocol stubs, operating system shims, logging and configuration.
