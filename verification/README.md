# LMDB engine and thread pool: verified model

This project models the storage engine bundled in `liblmdb/` (a copy-on-write
B+tree with one writer, many snapshot readers, page reclamation and nested
transactions), the ID lists and the dump and load programs that go with it, and
the thread pool of `libipfs/util/`. Each layer of the table is proved on its own.
The layers meet in `PageTree.dfy`, which proves that a page's bytes have room for
a node exactly where the tree does not split the page, in `FreelistSave.dfy`,
where the free-list loop uses the ID lists and moves the pages of `Lifecycle.dfy`
within the runs of `Mvcc.dfy`, and in `CopyEnv.dfy`, where the tree's page
counters give the size of a compacted copy.

| layer | files |
|---|---|
| ID lists | `IdlSort.dfy` (quicksort), `Idl.dfy` (append, search, merge, dirty lists), `FreeRuns.dfy` (runs of free pages, saving the free list) |
| pages | `PageFormat.dfy` (constants), `SlottedPage.dfy` (what a page's bytes mean), `PageOps.dfy` (the operations on a page's memory), `SubPage.dfy` (shrinking a sub-page of duplicates), `SplitPoint.dfy` (where a full page is cut) |
| B+tree | `BTree.dfy` (trees and the sorted map they stand for), `BTreePut.dfy`, `BTreeDel.dfy`, `BTreeLimits.dfy` (when a delete fails), `BTreeRepair.dfy` (which repair a delete makes), `BTreeDepth.dfy` (what it does to the depth), `BTreeFull.dfy` (databases on which put and delete fail, and one that a delete makes deeper), `BTreeStat.dfy` and `BTreeOver.dfy` (page, entry and overflow counters), `BTreeTrack.dfy` (other cursors), `PageTree.dfy` (pages that hold the tree's nodes), `Cursor.dfy` |
| page life cycle | `Lifecycle.dfy` (where every page number is), `FreelistSave.dfy` (the loop that saves the free list), `Mvcc.dfy` (writer, readers and meta pages as a state machine), `ReaderScan.dfy` (which transaction a reader pins and a scan finds), `CommitRuns.dfy` (that reader and writer get to their end) |
| nested commit | `NestedCommit.dfy` (merge of two dirty lists), `SpillLists.dfy`, `ChildCommit.dfy` |
| compacting copy | `CompactCopy.dfy`, `CompactWalk.dfy`, `CopyEnv.dfy` (renumbering), `CopyBuffers.dfy` (the two threads) |
| thread pool | `JobQueue.dfy` (the linked queue), `ThreadPool.dfy` (the workers and waiters) |
| dump and load | `DumpText.dfy` |

`dafny verify dfyconfig.toml` checks everything.

## How the code is modelled

- Code that updates memory in place is a method on an `array` or a class with
  loops like the original's; its contract equates the result with a function or
  a relation on the old contents, and lemmas say what that means.
- The B+tree is modelled on values. The loops inside its operations (binary
  search in a page, the descent, the split-point search, the cursor's
  positioning) are methods; the recursion from page to parent is a recursive
  function whose result carries the tree invariant.
- Protocols (readers and writer, the two copy threads, the thread pool) are
  state machines. A step is what one thread does between two points at which
  others can interfere; a run is any sequence of enabled steps. A reader stores
  its transaction number and re-reads the global one in separate steps, and the
  writer looks at one reader slot per step.
- Keys are compared through a rank in a total order, since the comparison
  function is the user's choice. Page sizes run from 4096 to 32768 bytes and are
  even, the largest key is 511 bytes, `sizeof(pgno_t)` is 8.
- Integers are unbounded, except in `Idls.NeedRoom`, where both 32-bit wrap-arounds
  of the growth computation are written out, and in the 16-bit words of a page.
- `midl.h` is not part of this model: the list sizes it defines are parameters.

## What turned out not to hold

- `SplitPoint`: a page is not always cut so that both halves fit. They do if it has
  fewer than psize/128 nodes, or the new node takes more than a sixteenth of the page
  or is the last one. Any other page is cut in the middle without a look at the sizes,
  and both halves fit exactly when the one that takes the new node has room for it
  (`SplitPoint.SplitFitsIff`). A put or delete fails with MDB_PAGE_FULL
  exactly when a page on its way fails this test (`BTreePut.PutCorrect`,
  `BTreeLimits.DelFails`); `BTreeFull` has databases on which that happens on a leaf
  page, on a branch page, and in a delete.
- `BTreeDepth`: a delete can make the tree deeper. When a node moves between
  neighbours the separator may grow, and its page may split, up to the root;
  `BTreeDepth.DelDepth` says from the bytes in use when, and `BTreeFull.DelDeepens`
  has a database on which it happens.
- `Mvcc`: the DB records a reader copies are read after its slot was checked. They
  are those of the transaction its slot names exactly when fewer than two
  commits came in between (`Mvcc.CopiedSnapshot`); otherwise they belong to a newer
  one (`Mvcc.CopiedSnapshotCanBeNewer`), which is still protected.
- `ThreadPool`: `thpool_wait` is woken by `pthread_cond_signal`, which wakes one
  waiter. With two waiting threads one can sleep on after the last job is done,
  and with one, however often it waits, it cannot (`ThreadPool.StrandedIff`). A
  comment in `jobqueue_pull` says that the caller must hold a mutex; the code takes
  the lock itself, and the model follows the code.
- `Idls`: `mdb_midl_need` does not always leave enough room. Both its sum and the size
  it asks for are computed in 32 bits; `Idls.NeedSuffices` says for which lists
  and requests the room suffices, and `Idls.SumWraps` and `Idls.SizeWraps` have an
  input for each of the two on which it does not.

## Model

| member | source | states |
|---|---|---|
| IdlSort.Sort | liblmdb/src/midl.c:220-279 | the list ends up in descending order and is a permutation of what it was; the explicit stack never overflows, for any int-sized list |
| IdlSort.Partition | liblmdb/src/midl.c:247-264 | the two parts are non-empty and inside the segment, and every ID of the left one is at least every ID of the right one; IDs are only rearranged within the segment |
| IdlSort.Exchange | liblmdb/src/midl.c:252-262 | the unguarded scans stop inside the segment, up to where they meet |
| IdlSort.InsertionSort | liblmdb/src/midl.c:232-239 | sorts a segment that nothing before it is smaller than, without touching anything left of it although the inner loop only tests for the list's start |
| IdlSort.CutKept | liblmdb/src/midl.c:220-279 | a border between larger and smaller IDs survives every rearrangement of a segment it is not strictly inside of |
| IdlSort.StaysPending | liblmdb/src/midl.c:265-276 | after a partition the stacked segments and the new ones still cover everything that is unsorted |
| IdlSort.DepthBound | liblmdb/src/midl.c:223-224 | because the larger part is the one stacked, a segment that is still split lies at a depth below 28 |
| IdlSort.PushRound | liblmdb/src/midl.c:265-276 | one more stacked segment stays within istack, and the round invariant holds for the part that is processed next |
| Idls.NeedSuffices | liblmdb/src/midl.c:143-155 | for every list length, request and allocated length, the room afterwards suffices if and only if there was room anyway, or neither the 32-bit sum nor the 32-bit size wraps around |
| Idls.NeedIsLeast | liblmdb/src/midl.c:143-155 | without wrap-around a list that has room is left alone, and one that has not gets room for a quarter more, as little as makes its words a multiple of 256 |
| Idls.SumWraps | liblmdb/src/midl.c:146-147 | a list and a request whose 32-bit sum wraps around and which are left without room |
| Idls.SizeWraps | liblmdb/src/midl.c:148 | the same where only the 32-bit size wraps around |
| Idls.Idl.Need | liblmdb/src/midl.c:143-155 | whenever the computed room suffices, there is room for num more IDs and the list is unchanged |
| Idls.Idl.Append | liblmdb/src/midl.c:157-169 | the list gets the ID at its end; a full list first grows by the given number of IDs |
| Idls.Idl.AppendList | liblmdb/src/midl.c:171-183 | the list is the concatenation of both; unless there is room to spare it first grows by the length of the second |
| Idls.Idl.AppendRange | liblmdb/src/midl.c:185-199 | the list gets the run of n page numbers, in descending order; a list too short grows by n with the bits of the given number set |
| Idls.BitOrBits | liblmdb/src/midl.c:190 | a bit of that growth is set if and only if it is in either number |
| Idls.Idl.Search | liblmdb/src/midl.c:34-65 | finds the ID, or the place that separates the larger IDs from the smaller ones |
| Idls.XMerge | liblmdb/src/midl.c:201-213 | the list becomes the descending merge in place, nothing beyond it changes, and a second list at the end of the same array is read before it can be overwritten |
| Idls.MergeIsUnion | liblmdb/src/midl.c:201-213 | the merge is the multiset union of both lists |
| Idls.MergeDescends | liblmdb/src/midl.c:201-213 | merging descending lists gives a descending list |
| Idls.MergeLoose | liblmdb/src/mdb.c:3632-3647 | the loose pages, gathered at the tail of the same allocation and sorted there, end up in the descending list; no page number is lost or doubled |
| Idls.Id2l.Search | liblmdb/src/midl.c:281-314 | finds the page number in an ascending list, or its place |
| Idls.Id2l.Insert | liblmdb/src/midl.c:316-345 | inserts in order; a duplicate and a full list are reported and leave the list alone |
| FreeRuns.RunByEnds | liblmdb/src/mdb.c:2510-2516 | in a strictly descending list one comparison of two places recognizes n consecutive pages |
| FreeRuns.FindRun | liblmdb/src/mdb.c:2507-2519 | finds a run of num pages if and only if there is one, and then the lowest |
| FreeRuns.TakeRun | liblmdb/src/mdb.c:2633-2637 | cuts exactly the run's places out of the list |
| FreeRuns.WithoutPages | liblmdb/src/mdb.c:2633-2637 | exactly the run's pages are gone and the list stays strictly descending |
| FreeRuns.ReturnRun | liblmdb/src/mdb.c:6751-6760 | inserts the pages of a freed overflow run at their place |
| FreeRuns.WithPages | liblmdb/src/mdb.c:6753-6759 | exactly the run's pages are added and the list stays strictly descending |
| FreeRuns.TakeThenReturn | liblmdb/src/mdb.c:6753-6759 | returning a run that was taken restores the list |
| FreeRuns.ReturnThenTake | liblmdb/src/mdb.c:2633-2637 | taking a run that was returned restores the list |
| FreeRuns.RemoveDirty | liblmdb/src/mdb.c:6731-6748 | the page leaves the dirty list and the others keep their order; a missing page is reported, with the list rotated by one |
| FreeRuns.FillRecords | liblmdb/src/mdb.c:3653-3679 | the records hold consecutive slices of the list, each preceded by its length, and the borrowed words are put back |
| FreeRuns.SlicesCover | liblmdb/src/mdb.c:3663-3678 | the slices make up the whole list if and only if the reserved records have room enough for it, and none exceeds its record |
| FreeRuns.SaveThenRead | liblmdb/src/mdb.c:2580-2606 | merging the saved records back one by one gives the same list |
| SpillLists.DropSpilled | liblmdb/src/mdb.c:6724-6730 | a page that is no longer spilled leaves the live entries, and only it; the list stays in order |
| SlottedPage.ReadBack | liblmdb/src/mdb.c:8386-8427 | a stored node reads back with its key, flags, size and data |
| SlottedPage.AddedValid | liblmdb/src/mdb.c:8386-8427 | after an addition the node extents are disjoint and exactly tile the heap again |
| SlottedPage.AddedNodes | liblmdb/src/mdb.c:8386-8427 | every old node is there byte for byte, with the new one at its index |
| SlottedPage.RemovedValid | liblmdb/src/mdb.c:8470-8494 | after a deletion the extents are disjoint and tile the heap |
| SlottedPage.RemovedNodes | liblmdb/src/mdb.c:8470-8494 | every other node is there byte for byte, through its adjusted offset |
| SlottedPage.ResizedValid | liblmdb/src/mdb.c:8838-8873 | after a node has grown or shrunk the extents are disjoint and tile the heap |
| SlottedPage.ResizedNodes | liblmdb/src/mdb.c:8838-8873 | every other node is there byte for byte |
| PageOps.Page.NodeAdd | liblmdb/src/mdb.c:8319-8440 | adds the node, with large data replaced by an overflow page number, if and only if slot and node fit; otherwise the page is unchanged |
| PageOps.Page.NodeDel | liblmdb/src/mdb.c:8446-8494 | exactly that node is gone, and the space it took is free |
| PageOps.Page.UpdateKey | liblmdb/src/mdb.c:8810-8875 | the key is replaced and everything else kept if the growth fits; otherwise nothing changes |
| PageOps.Page.OpenSlot | liblmdb/src/mdb.c:8386-8388 | the table entries from the index on have moved up one place, the heap is untouched |
| PageOps.Page.CloseSlot | liblmdb/src/mdb.c:8477-8486 | the entry is gone and those of nodes that will move are adjusted |
| SubPages.NodeShrink | liblmdb/src/mdb.c:8502-8540 | the other nodes are as they were, the shrunk one keeps its key and what its sub-page holds, and the page gains exactly the sub-page's free space; a LEAF2 node that would become uneven is left alone |
| SubPages.StaysIff | liblmdb/src/mdb.c:8516-8519 | a sub-page is left alone if and only if without its free space it would be uneven |
| SubPages.MoveTable | liblmdb/src/mdb.c:8520-8524 | the offsets, lowered by delta, arrive delta bytes further up although the two tables overlap |
| SubPages.RebasedValid | liblmdb/src/mdb.c:8520-8527 | through offsets lowered by delta, from a start delta bytes up, the sub-page's own nodes read back unchanged and tile its heap |
| SubPages.SlidCompacts | liblmdb/src/mdb.c:8516-8531 | the moved sub-page is well formed, has no free space and holds the same nodes, or the same LEAF2 keys |
| SubPages.SlidResized | liblmdb/src/mdb.c:8529-8539 | for the main page the moves are a resize of that one node |
| PageTree.KeysInOrder | liblmdb/src/mdb.c:5986-6074 | the key bytes of a page that holds a sorted list are in md_cmp order, and its binary search is the list's |
| PageTree.EntriesTake | liblmdb/src/mdb.c:1044 | the nodes of a leaf page and their slots take the bytes the tree reckons with for its entries |
| PageTree.KidsTake | liblmdb/src/mdb.c:1044 | the same for a branch page and its children |
| PageTree.AddEntry | liblmdb/src/mdb.c:7987-7998 | on a page that holds a list of entries, mdb_node_add has room if and only if the tree would not split it, and then the page holds the list with the new entry |
| PageTree.NoRoomSplits | liblmdb/src/mdb.c:7990-7995 | that condition is the one under which the tree keeps the page whole |
| PageTree.RemoveEntry | liblmdb/src/mdb.c:8446-8494 | after mdb_node_del the page holds the list without that entry |
| PageTree.AddKid | liblmdb/src/mdb.c:8319-8440 | a child fits a branch page if and only if the tree's sizes say so, and then the page holds it |
| PageTree.SetKey | liblmdb/src/mdb.c:8843-8875 | mdb_update_key fails if and only if the page with the new separator would be too large |
| SplitPoint.ChooseSplit | liblmdb/src/mdb.c:9775-9853 | the split-point loops compute the first place at which the page would overflow, from the left or the right |
| SplitPoint.SearchedSplitFits | liblmdb/src/mdb.c:9823-9853 | wherever the code searches for the split point, both halves fit the page, on branch pages with the first right key dropped |
| SplitPoint.SearchUpFits | liblmdb/src/mdb.c:9830-9843 | the same for the scan from the left |
| SplitPoint.SearchDownFits | liblmdb/src/mdb.c:9844-9852 | the same for the scan from the right |
| SplitPoint.FewOrLargeFits | liblmdb/src/mdb.c:9781-9823 | both halves fit on every page with fewer than psize/128 old nodes, and wherever the new node takes more than a sixteenth of the page or is the last one |
| SplitPoint.SplitIndexIs | liblmdb/src/mdb.c:9775-9853 | where exactly a page is cut: on all other pages in the middle; on these, at the end of the longest left half that fits and goes at most to the middle (on a leaf one further), or at the start of the longest right half that fits, whichever the new node is on |
| SplitPoint.SplitFitsIff | liblmdb/src/mdb.c:9775-9853 | for every page that has to be split, both halves fit if and only if it has fewer than psize/128 old nodes, the new node takes more than a sixteenth of the page or is the last, or the middle leaves room in the half that takes it |
| SplitPoint.MidpointCanOverflow | liblmdb/src/mdb.c:9779-9823 | concrete node sizes for which the midpoint, taken without a search, leaves a half too large |
| BTree.ContentsSorted | liblmdb/src/mdb.c:5986-6074 | the entries of a well-formed tree are strictly sorted and within its bounds |
| BTree.ToMapSound | liblmdb/src/mdb.c:6811-6842 | the map a sorted entry list stands for holds exactly its entries |
| BTree.EntrySizeIs | liblmdb/src/mdb.c:8263-8275 | a value is on its page if and only if two nodes with such a value fit an empty page; otherwise its node holds a page number |
| BTree.TwoNodesFit | liblmdb/src/mdb.c:5020-5021 | two nodes of a size fit an empty page, with their slots, if and only if that size is at most me_nodemax |
| BTreePut.NodeSearch | liblmdb/src/mdb.c:5986-6074 | binary search returns the first node not below the key and whether it is equal; on branch pages node 0 counts as minus infinity |
| BTreePut.FollowKey | liblmdb/src/mdb.c:6507-6543 | the child that is followed is the one whose range holds the key |
| BTreePut.SplitLeafOk | liblmdb/src/mdb.c:9854-9906 | the two halves of a split leaf are well formed around the separator and hold the old entries with the new one in its place |
| BTreePut.SplitBranchOk | liblmdb/src/mdb.c:9920-9990 | the same for a branch page, each half keeping two children |
| BTreePut.SplitLeafFull | liblmdb/src/mdb.c:9775-9906 | a leaf cannot be split if and only if that test fails and the put is not an append |
| BTreePut.SplitBranchFull | liblmdb/src/mdb.c:9775-9990 | a branch page cannot be split if and only if that test fails |
| BTreePut.AppendKeepsPage | liblmdb/src/mdb.c:9728-9732 | with MDB_APPEND a full page stays as it is and the new node starts the next page |
| BTreePut.AbsorbOk | liblmdb/src/mdb.c:9692-9717 | a parent that takes in a split child stays well formed, splitting itself if it has to |
| BTreePut.PutInOk | liblmdb/src/mdb.c:7587-8110 | an insertion below any page keeps the tree well formed and inserts the entry, through recursive splits |
| BTreePut.PutFullIff | liblmdb/src/mdb.c:7987-7995 | an insertion below any page fails if and only if the leaf or a parent on the way back up cannot be split |
| BTreePut.PutBreaksIff | liblmdb/src/mdb.c:9656-9717 | an insertion splits a page if and only if the sizes of the new node and of every split child make it too large, and it can be split |
| BTreePut.PutCorrect | liblmdb/src/mdb.c:10076-10097 | a put keeps the database valid with the entry at its place in the sorted contents; it fails if and only if a page on the way is stuck; the depth grows by one if there was no root or, by their sizes, all pages from the leaf up to the root have to be split, and otherwise stays |
| BTreePut.PutMeaning | liblmdb/src/mdb.c:10076-10097 | as a map the result is the old one with this key set |
| BTreePut.UpsertKey | liblmdb/src/mdb.c:7967-7983 | a value of the same length on the page itself is overwritten and leaves the old key in place, any other value brings its own key |
| BTreePut.PutFullCrowded | liblmdb/src/mdb.c:9823 | a put that fails leaves a page of at least psize/128 nodes that was to take, before its last node, one of at most a sixteenth of the page |
| BTreeDel.FillIsBytes | liblmdb/src/mdb.c:9301-9322 | a leaf has to be repaired if and only if it is empty or less than a quarter of it is in use, a branch page if and only if it has one child or less than a thousandth is in use; a neighbour can spare a node if and only if it is filled that much and keeps the minimum |
| BTreeDel.NeighbourSize | liblmdb/src/mdb.c:9455-9463 | a neighbour that cannot spare a node leaves room for the merge |
| BTreeDel.MoveAddFits | liblmdb/src/mdb.c:8900-9118 | the node_add inside a move has room, for leaf and branch pages, from the left and from the right |
| BTreeDel.MoveOk | liblmdb/src/mdb.c:8900-9118 | moving a node between neighbours keeps both well formed around the new separator, with the same contents |
| BTreeDel.MergeOk | liblmdb/src/mdb.c:9129-9264 | merging two neighbours fits one page and keeps the contents |
| BTreeDel.RebalanceOk | liblmdb/src/mdb.c:9296-9476 | whichever repair is taken, the parent stays well formed and keeps its entries |
| BTreeDel.DelIn | liblmdb/src/mdb.c:9480-9583 | deletion below any page removes exactly that entry; what is returned is a well-formed page or one its parent has to rebalance |
| BTreeDel.DelCorrect | liblmdb/src/mdb.c:9603-9650 | a delete reports a missing key, or keeps the database valid with exactly that entry gone; otherwise it fails with a page that cannot be split |
| BTreeLimits.DelFullIff | liblmdb/src/mdb.c:8843-8851 | a deletion below any page fails if and only if a separator that has grown makes a page on the way back up too large, and it cannot be split |
| BTreeLimits.DelFails | liblmdb/src/mdb.c:9603-9650 | the same for the whole database |
| BTreeLimits.DelFullCrowded | liblmdb/src/mdb.c:9823 | a delete that fails leaves such a page as a failing put does |
| BTreeRepair.LeafRepair | liblmdb/src/mdb.c:9318-9463 | what a delete leaves above a leaf, from the bytes in use: the leaf as it is; or a neighbour with a quarter of its page in use and two entries gives its nearest entry, whose place becomes the separator; or one merged page; the neighbour is the left one except for the first leaf |
| BTreeRepair.LeafKept | liblmdb/src/mdb.c:9318-9322 | the parent keeps its pages as they are if and only if the leaf without the entry still uses a quarter of its page |
| BTreeRepair.BranchTakesLeft | liblmdb/src/mdb.c:9418-9463 | the same for a branch page that has become thin and its left neighbour; what moves gets as key the first key below it |
| BTreeRepair.BranchTakesRight | liblmdb/src/mdb.c:9401-9463 | the same for a first branch page and its right neighbour |
| BTreeDepth.DelOutcome | liblmdb/src/mdb.c:9296-9476 | below any page, by the bytes in use alone: the page is split if and only if a moved node's separator or a split child makes it too large, and it is left to its parent to check if and only if its touched child came back less than a quarter full (a branch page: with one child) and its neighbour had no node to spare |
| BTreeDepth.DelDepth | liblmdb/src/mdb.c:9329-9371 | the depth goes up by one if and only if that splits the root page, down by one if and only if the root has two children and so they are merged, and the tree is emptied if and only if its last entry goes |
| BTreeFull.DelDeepens | liblmdb/src/mdb.c:9631-9637 | a valid database of depth 2 and a key whose delete leaves depth 3 |
| BTreeFull.PutFailsOnLeaf | liblmdb/src/mdb.c:9779-9823 | a valid one-page database and an entry on which a put fails |
| BTreeFull.PutFailsOnBranch | liblmdb/src/mdb.c:9779-9823 | a valid database in which the leaf splits and its parent cannot |
| BTreeFull.DelFailsOnBranch | liblmdb/src/mdb.c:8843-8851 | a valid database and a key on which a delete fails |
| BTreeStat.PutCounts | liblmdb/src/mdb.c:8239-8242 | below any page, the branch and leaf page counters move by exactly the pages an insertion adds |
| BTreeStat.DelCounts | liblmdb/src/mdb.c:9223-9226 | the same for the merges, moves and splits of a deletion |
| BTreeStat.PutKeepsCounters | liblmdb/src/mdb.c:7693-7703 | if depth, page and entry counters describe the tree before a put, they describe it afterwards, through a first root, splits and a new root |
| BTreeStat.DelKeepsCounters | liblmdb/src/mdb.c:9329-9370 | the same for a delete, through merges, splits, a collapsed root and an emptied tree |
| BTreeOver.PutKeepsOver | liblmdb/src/mdb.c:7899-7962 | if md_overflow_pages is the sum of the overflow runs before a put, it is afterwards, whether a run is freed, made or overwritten in place, and the bytes of every run hold a page header and its value |
| BTreeOver.BigIsLarge | liblmdb/src/mdb.c:8364 | a value gets an overflow run if and only if two nodes with it would not fit one page |
| BTreeOver.OvPagesBytes | liblmdb/src/mdb.c:1066 | the pages a value asks for hold a page header and the value, and one page less does not |
| BTreeOver.OvPagesShortest | liblmdb/src/mdb.c:1066 | a run holds a page header and the value if and only if it has at least that many pages |
| BTreeOver.PutRun | liblmdb/src/mdb.c:7899-7962 | the run of a value after its put: the old one, if that is dirty and holds the value, and otherwise a new one that is no longer than it has to be |
| BTreeOver.DelKeepsOver | liblmdb/src/mdb.c:8196-8206 | the same for a delete, which frees the run by the length in its header |
| BTreeTrack.PutTracks | liblmdb/src/mdb.c:9998-10060 | below any page, the index fix-ups of splits and insertions keep a cursor on its entry |
| BTreeTrack.PutKeepsCursor | liblmdb/src/mdb.c:10014-10044 | after a put every cursor is on the entry it was on, through recursive splits and a new root |
| BTreeTrack.MoveRightTracks | liblmdb/src/mdb.c:9000-9027 | the fix-ups of a node moved to the right neighbour keep a cursor on either page on its entry |
| BTreeTrack.MoveLeftTracks | liblmdb/src/mdb.c:9028-9051 | the same for a node moved to the left neighbour |
| BTreeTrack.MergeTracks | liblmdb/src/mdb.c:9227-9250 | the same for two merged pages |
| BTreeTrack.RebalanceTracks | liblmdb/src/mdb.c:9410-9476 | whichever repair is taken, a cursor below the parent stays on its entry |
| BTreeTrack.DelKeepsCursor | liblmdb/src/mdb.c:9480-9583 | after a delete every cursor on another entry is still on it, through moves, merges, splits and a new or collapsed root |
| BTreeDel.DelMeaning | liblmdb/src/mdb.c:9603-9650 | the key is not found if and only if the map lacks it; otherwise exactly this key is gone |
| Cursors.Descend | liblmdb/src/mdb.c:6493-6560 | the descent reaches the leaf on which the key belongs, with the path linked page by page |
| Cursors.Cursor.Sibling | liblmdb/src/mdb.c:6845-6900 | moves to the page that directly follows in key order, or reports that there is none and stays |
| Cursors.Cursor.CheckPage | liblmdb/src/mdb.c:7093-7176 | the shortcuts on the current page, taken or refused, agree with the sorted contents of the whole tree |
| Cursors.Cursor.CheckAfterFirst | liblmdb/src/mdb.c:7110-7163 | the same for a key above the page's first one, including the claim that nothing follows a rightmost page |
| Cursors.CheckKeys | liblmdb/src/mdb.c:7118-7155 | the comparisons with the last and the current key of a page find the answer, place the key on this page, or show that it lies above the page |
| Cursors.Cursor.SearchLeaf | liblmdb/src/mdb.c:7178-7209 | once the leaf is known the search in it, with a step to the next leaf, gives the answer |
| Cursors.Cursor.Set | liblmdb/src/mdb.c:7076-7209 | from any position, exact and range requests find an entry if and only if the database, which may be empty, holds an answer, and stop at the first entry not below the key |
| Cursors.RightEdge | liblmdb/src/mdb.c:7145-7155 | a page that is the last child on every level ends where the tree ends |
| Lifecycle.StepConserves | liblmdb/src/mdb.c:2158-2201 | loosening, touching, allocating, freeing and surrendering loose pages keep every page number in exactly one place |
| Lifecycle.EnabledIff | liblmdb/src/mdb.c:2158-2201 | a step is possible if and only if its pages are in the place it takes them from, and it obeys the order of records and the rules about dirty pages |
| Lifecycle.StepMoves | liblmdb/src/mdb.c:2158-2201 | every step moves just the pages it names, from one given place to another, and changes which pages are dirty for just those |
| Lifecycle.ConsumeConserves | liblmdb/src/mdb.c:2533-2606 | so does reading a record of the free list |
| Lifecycle.SaveConserves | liblmdb/src/mdb.c:3464-3679 | with a freeDB as SaveEnds gives it, the committed snapshot has every page in exactly one place |
| FreelistSave.DeletesConsumed | liblmdb/src/mdb.c:3543-3552 | the loop deletes only what was consumed or reserved before, as the code asserts, lowest key first |
| FreelistSave.HeadPositive | liblmdb/src/mdb.c:3593-3607 | no record is reserved under the key 0 |
| FreelistSave.TurnKeeps | liblmdb/src/mdb.c:3533-3629 | after every turn total_room is the room of all reserved records and head_room that of the lowest, unless records are still to be deleted; what is stored of mt_free_pgs is part of it |
| FreelistSave.MoveKeeps | liblmdb/src/mdb.c:3465-3468 | so it is after every allocation and every free the puts and deletes cause, including those that consume further records |
| FreelistSave.RoomSuffices | liblmdb/src/mdb.c:3597-3599 | when the loop ends, all consumed records are deleted, mt_free_pgs is stored whole, and the reserved records have room for me_pghead and the loose pages |
| FreelistSave.QuietEnds | liblmdb/src/mdb.c:3593-3629 | once the puts move no more pages, the loop ends |
| FreelistSave.HeadRoomIs | liblmdb/src/mdb.c:3611-3620 | a reserved record has the room that is needed, or, of what takes more than a page, an equal share for each key that is left, rounded up to whole pages |
| FreelistSave.ReserveFits | liblmdb/src/mdb.c:3597-3620 | a turn that reserves leaves all records but the lowest alone and gives that one what the others lack, so that the room is exact unless it takes more than a page |
| FreelistSave.TooLargeOnce | liblmdb/src/mdb.c:3597-3600 | the first time the room is too large the lowest record is made smaller, and if the room is then not too small the loop ends |
| FreelistSave.EndsTooLarge | liblmdb/src/mdb.c:3597-3600 | in every run of the loop, room that is too large ends it if and only if a record has been rewritten before because of too much room |
| FreelistSave.SaveFinishes | liblmdb/src/mdb.c:3533-3629 | from any point of the loop, whatever has been consumed or freed since, deletes, the put of mt_free_pgs and reservations lead to its end |
| FreelistSave.MergeLists | liblmdb/src/mdb.c:3634-3650 | merging the loose pages into me_pghead lists the pages to return, each once, in descending order |
| FreelistSave.SlicesHold | liblmdb/src/mdb.c:3663-3678 | a page number is in the list if and only if it is in a slice |
| FreelistSave.SlicesAscend | liblmdb/src/mdb.c:3663-3678 | the records with lower keys hold the lower page numbers |
| FreelistSave.SaveEnds | liblmdb/src/mdb.c:3533-3679 | the loop and the filling leave the freeDB that the commit needs: unread records kept, mt_free_pgs under this transaction, and the pages to return in exactly one record each |
| Lifecycle.BeginConserves | liblmdb/src/mdb.c:3099-3135 | a transaction that begins from such a snapshot conserves pages |
| Mvcc.StepKeepsInv | liblmdb/src/mdb.c:2401-2417 | every step of writer, readers, scan, free-list loop, commit and crash keeps the invariant |
| Mvcc.PinnedSnapshotsSafe | liblmdb/src/mdb.c:2545-2571 | in every run, no page the writer may write is in the snapshot of a reader that has finished its retry loop, which can be read back from disk |
| Mvcc.HistoryGrows | liblmdb/src/mdb.c:4297-4400 | committed snapshots are never altered by later steps |
| Mvcc.ReaderSeesOneSnapshot | liblmdb/src/mdb.c:3054-3089 | over its whole life a reader sees one unchanging snapshot |
| Mvcc.CrashRecoversSnapshot | liblmdb/src/mdb.c:4427-4433 | stopping at any step leaves pick_meta selecting a complete snapshot: the last published one, or the one whose meta page was just written |
| Mvcc.MetaSnapshotsUntouched | liblmdb/src/mdb.c:4313-4319 | while a write transaction runs, the snapshots of both meta pages stay intact |
| Mvcc.PagesConserved | liblmdb/src/mdb.c:974-975 | in every run, through every interleaving of the free-list loop with allocations, every page number is in exactly one place, in every snapshot and in the running transaction |
| Mvcc.CopiedSnapshot | liblmdb/src/mdb.c:3083-3125 | the records a reader copies belong to the transaction its slot names if and only if fewer than two commits reached a meta page since |
| Mvcc.CopiedSnapshotCanBeNewer | liblmdb/src/mdb.c:3083-3125 | a run in which they belong to a newer one |
| ReaderScan.ScanResultSeen | liblmdb/src/mdb.c:2401-2417 | however a scan of the reader table is interleaved with readers, its result is the last committed transaction or what some slot held when the scan came by |
| ReaderScan.ScanExact | liblmdb/src/mdb.c:2401-2417 | when no slot changes meanwhile the result is the least of the last committed transaction and those the occupied slots hold, and the next record of the free list may be consumed if and only if it is older than all of them |
| ReaderScan.ReaderPins | liblmdb/src/mdb.c:3077-3082 | a turn of a reader's retry loop ends with a pin on the transaction that was the newest when the turn began if that is still the newest, and otherwise with another turn |
| ReaderScan.IdleSlotHoldsNothing | liblmdb/src/mdb.c:3354-3363 | between two read transactions a slot holds no transaction back |
| CommitRuns.WriterCommits | liblmdb/src/mdb.c:4075-4155 | from every reachable state, in the middle of a scan, of the free-list loop or of the flush, the writer can get to the end of its commit by its own steps |
| CommitRuns.ReaderReads | liblmdb/src/mdb.c:3054-3089 | in every reachable state a reader left alone gets the newest snapshot |
| CommitRuns.ReaderEnds | liblmdb/src/mdb.c:3354-3363 | a read transaction can end, and leaves nothing in its slot |
| CommitRuns.WriterBegins | liblmdb/src/mdb.c:3099-3135 | without a writer one can begin, on the last snapshot |
| CommitRuns.WriterAborts | liblmdb/src/mdb.c:3366-3410 | until its meta page is written a transaction can be aborted, and the history stays |
| CommitRuns.Crashes | liblmdb/src/mdb.c:4427-4433 | everything can stop at any moment, and the last snapshot of the history is the one to go on from |
| CommitRuns.WriterWorks | liblmdb/src/mdb.c:2460-2680 | a working transaction can allocate and free whatever pages are in the right place |
| NestedCommit.MergeAscends | liblmdb/src/mdb.c:4047-4056 | the merged dirty list is sorted and free of duplicates |
| NestedCommit.UnionOfBoth | liblmdb/src/mdb.c:4047-4056 | it lists the child's entries and those of the parent whose page the child does not have |
| NestedCommit.MergeCount | liblmdb/src/mdb.c:4027-4044 | its length is the number of pages in either list |
| NestedCommit.MergeLength | liblmdb/src/mdb.c:4030-4041 | the length computed in advance is that of the merge |
| NestedCommit.MergeDirty | liblmdb/src/mdb.c:4045-4056 | with that length the backward merge in place yields the merge |
| NestedCommit.MergeEnd | liblmdb/src/mdb.c:4054 | when the child's list is used up, the write position is the end of the untouched part |
| SpillLists.PurgeSpill | liblmdb/src/mdb.c:3985-4006 | what is left of the parent's spill list is what marking the child's pages and dropping deleted entries leaves |
| SpillLists.MarkedLive | liblmdb/src/mdb.c:3990-4005 | the live entries lose exactly the child's dirty pages |
| SpillLists.HideSpilled | liblmdb/src/mdb.c:4008-4025 | the parent's dirty list keeps, in order, the entries the child has not spilled |
| SpillLists.UnspilledHas | liblmdb/src/mdb.c:4008-4025 | an entry stays if and only if its page is not live on the child's spill list |
| ChildCommit.StepAccounts | liblmdb/src/mdb.c:1377-1382 | dirtying, copying from an ancestor, spilling, fetching back, freeing an overflow run, beginning, committing and aborting a nested transaction keep every room in the chain equal to the size minus the visible dirty pages, and at least 0 |
| ChildCommit.StepSees | liblmdb/src/mdb.c:3983-4072 | the dirty pages a transaction sees change by just those a step names; a child begins with what its parent sees, hands it what it sees itself, or leaves it as it was |
| ChildCommit.ReachedAccounted | liblmdb/src/mdb.c:4057-4072 | so it is for every chain of transactions that any run reaches |
| ChildCommit.MayDirty | liblmdb/src/mdb.c:2419-2440 | in every chain a run reaches, a page the transaction does not see can be made dirty as long as there is room |
| ChildCommit.MayCopy | liblmdb/src/mdb.c:2777-2808 | a page that is dirty in the parent can be copied |
| ChildCommit.MaySpill | liblmdb/src/mdb.c:2364-2393 | a dirty page that no ancestor has spilled can be spilled, which makes room for one |
| ChildCommit.MayFree | liblmdb/src/mdb.c:6712-6748 | a top-level transaction can free an overflow page, dirty or spilled |
| ChildCommit.MayNest | liblmdb/src/mdb.c:3224-3243 | a child can begin, with empty lists and its parent's room |
| ChildCommit.MayEnd | liblmdb/src/mdb.c:3983-4072 | a child can commit, which leaves its parent these lists and this room, or abort, which leaves its parent as it was |
| ChildCommit.RoomIsLength | liblmdb/src/mdb.c:4042-4044 | in every such chain the merge fits the list, and with a single ancestor the room left gives its length, whatever children of its own the child has committed |
| ChildCommit.CommittedIds | liblmdb/src/mdb.c:3983-4056 | the list the commit leaves is the dirty list of the parent in the chain |
| ChildCommit.CommittedPages | liblmdb/src/mdb.c:3983-4056 | after the commit the parent lists the child's pages and those of its own that the child neither has dirty nor spilled |
| ChildCommit.CommitChild | liblmdb/src/mdb.c:3983-4070 | the commit leaves that dirty list, and a spill list in order whose pages are those still spilled of the parent and those of the child, with one or several ancestors |
| ChildCommit.StepSpillsOnce | liblmdb/src/mdb.c:2364-2381 | no page is on the spill lists of two transactions of a chain |
| SpillLists.JoinedOrder | liblmdb/src/mdb.c:4058-4066 | appending and sorting two such lists gives one, with exactly the pages of both |
| CompactCopy.EmitStores | liblmdb/src/mdb.c:10229-10382 | wherever the emitted pages lie in a file at their numbers, they stand for the same tree, with overflow runs and sub-databases |
| CompactCopy.EmitInPlace | liblmdb/src/mdb.c:10372-10374 | every page is emitted at the place its number says |
| CompactWalk.Copy.Walk | liblmdb/src/mdb.c:10229-10382 | the walk with its explicit stack emits those pages and returns the number of the last one |
| CompactWalk.Copy.CopyItems | liblmdb/src/mdb.c:10268-10335 | a leaf's overflow runs and sub-databases are emitted first and its items refer to the copies |
| CompactWalk.BranchStep | liblmdb/src/mdb.c:10336-10362 | returning to a branch page either leads to its next child or completes it |
| CopyEnv.CountIsPages | liblmdb/src/mdb.c:10469-10471 | the pages of a tree without sub-databases are its branch pages, its leaf pages and the runs of its big entries |
| CopyEnv.RootPredicted | liblmdb/src/mdb.c:10457-10476 | under page conservation, and with branch, leaf and overflow counters that describe the free list's tree, the root number computed from the free count is the one the walk ends with |
| CopyEnv.CopyFd | liblmdb/src/mdb.c:10386-10492 | the copy is accepted if and only if the page count agrees, and is then a dense file with the same data, rooted in its last page |
| CopyBuffers.StepKeepsInv | liblmdb/src/mdb.c:10147-10221 | every step of either thread keeps the hand-off invariant |
| CopyBuffers.NeverSameBuffer | liblmdb/src/mdb.c:10208-10221 | the provider never fills or clears the buffer that is being written |
| CopyBuffers.NeverBothAsleep | liblmdb/src/mdb.c:10147-10221 | the threads never both wait, and neither sleeps while it could go on |
| CopyBuffers.NeverStuck | liblmdb/src/mdb.c:10147-10221 | until both are done one of them has a step, without spurious wakeups |
| CopyBuffers.FileIsComplete | liblmdb/src/mdb.c:10147-10197 | the file is a beginning of the buffers and overflow tails in hand-off order, and all of them when the writer ends without error |
| CopyBuffers.CopyEnds | liblmdb/src/mdb.c:10147-10221 | from every state a run reaches the copy can come to its end without spurious wakeups, and then, unless a thread has failed, the file is complete |
| CopyBuffers.WaitsIffBothFull | liblmdb/src/mdb.c:10208-10221 | after a hand-off the provider waits if and only if both buffers are full, and otherwise fills the other one while the writer writes |
| CopyBuffers.ProviderMay | liblmdb/src/mdb.c:10229-10382 | in every such state a filling provider may add any page that fits, and hand over its buffer with any overflow tail |
| CopyBuffers.MayFail | liblmdb/src/mdb.c:10178-10186 | either thread may fail where it does I/O, and then the error is recorded |
| JobQueues.JobQueue.Push | libipfs/util/thread_pool.c:438-459 | the job joins the rear of the linked queue and the semaphore is 1 |
| JobQueues.JobQueue.Pull | libipfs/util/thread_pool.c:469-495 | the front job leaves the queue, and the semaphore is posted if jobs are left |
| ThreadPool.StepKeepsInv | libipfs/util/thread_pool.c:353-382 | every step of workers, pusher and waiters keeps the invariant |
| ThreadPool.AttendedKept | libipfs/util/thread_pool.c:438-495 | a queue that is not empty always has the semaphore at 1, a worker that will pull, or a post on its way |
| ThreadPool.NotOversleptKept | libipfs/util/thread_pool.c:530-555 | with the semaphore at 1 not all idle workers sleep |
| ThreadPool.EveryJobOnce | libipfs/util/thread_pool.c:438-495 | every job pushed is queued, held by a worker or run, once, and jobs leave in the order of the pushes |
| ThreadPool.PoolGoesOn | libipfs/util/thread_pool.c:353-382 | with work to do the pool has a step without another push or a spurious wakeup |
| ThreadPool.StepUsesUp | libipfs/util/thread_pool.c:353-382 | every step of a worker uses up some of the work that is left |
| ThreadPool.PoolFinishes | libipfs/util/thread_pool.c:353-382 | so from every state a run reaches, a pool with a worker runs all jobs pushed so far, each once, without another push or a spurious wakeup |
| ThreadPool.WaitTurn | libipfs/util/thread_pool.c:197-203 | a turn of thpool_wait with nobody in between returns if and only if the pool is idle, and sleeps otherwise |
| ThreadPool.ReturnedWasIdle | libipfs/util/thread_pool.c:197-203 | whenever a call of thpool_wait has returned, there was a moment in that call with no queued and no running job |
| ThreadPool.IdleMeansDone | libipfs/util/thread_pool.c:197-203 | at such a moment every job pushed so far has been run |
| ThreadPool.LoneWaiter | libipfs/util/thread_pool.c:197-203 | a lone waiting thread, however often it waits, never sleeps on in an idle pool |
| ThreadPool.StrandedIff | libipfs/util/thread_pool.c:374-378 | a waiter can be left asleep for good if and only if more than one thread waits, each as often as it likes |
| ThreadPool.StaysSettled | libipfs/util/thread_pool.c:374-378 | such a waiter stays asleep until another push or a spurious wakeup |
| DumpText.Text | liblmdb/src/mdb_dump.c:58-77 | the printer writes the escaped line |
| DumpText.ByteValues | liblmdb/src/mdb_dump.c:79-90 | the printer writes the line of hex digits |
| DumpText.UnhexOfHex | liblmdb/src/mdb_load.c:161-173 | a byte printed as two digits reads back |
| DumpText.RoundTrip | liblmdb/src/mdb_load.c:230-272 | for every byte string, both modes and any printable set, decoding what was printed gives the bytes back |
| DumpText.PlainText | liblmdb/src/mdb_dump.c:58-77 | printable bytes without a backslash are printed as they are, between a space and a newline |
| DumpText.TextPieces | liblmdb/src/mdb_dump.c:66-73 | the text is that of the single bytes one after the other: the byte itself, a backslash doubled, or a backslash and the two lower-case digits of an unprintable byte |
| DumpText.TextLength | liblmdb/src/mdb_dump.c:66-73 | a printable backslash takes one byte more and an unprintable byte two more, and nothing else is added |
| DumpText.TextPrintable | liblmdb/src/mdb_dump.c:66-73 | the text consists of printable bytes, backslashes and digits |
| DumpText.HexPieces | liblmdb/src/mdb_dump.c:52-56 | in hex mode every byte is printed as its two lower-case digits |
| DumpText.DigitsRead | liblmdb/src/mdb_load.c:161-173 | two hex digits of either case read as 16 times the value of the one plus that of the other |
| DumpText.DecodeConcat | liblmdb/src/mdb_load.c:235-254 | text decodes piece by piece, and a malformed rest makes the whole malformed |
| DumpText.DecodeEscape | liblmdb/src/mdb_load.c:240-247 | a backslash and two hex digits of either case decode to the byte they name |
| DumpText.DecodeBad | liblmdb/src/mdb_load.c:237-246 | text in which a backslash is followed neither by another nor by two digits is malformed |
| DumpText.DecodeHexIff | liblmdb/src/mdb_load.c:255-270 | a hex line is accepted if and only if it is pairs of digits, and each pair gives one byte |
| DumpText.Decode | liblmdb/src/mdb_load.c:230-272 | the in-place decoder accepts exactly the decodable lines, and never writes beyond where it has read |
| DumpText.OneLine | liblmdb/src/mdb_dump.c:58-90 | a printed value contains no newline and no NUL |
| DumpText.DumpLoads | liblmdb/src/mdb_load.c:175-275 | a dumped sequence of keys and values is read back as it was |

## Left out

- Sorted duplicates: no sub-cursors or sub-databases, and of sub-pages and fixed-size keys only what `mdb_node_shrink` does to their bytes; in the tree a value is one byte string.
- Of the fix-ups of other cursors, the one for a cursor on the deleted entry itself, and the page pointers beside the indices: a cursor is its indices from the root down.
- The B+tree on values does not capture page numbers and the sharing of pages between versions; these are in `Lifecycle` and `Mvcc`, which in turn see trees only as sets of pages.
- A dirty overflow page that is overwritten in place by data small enough for the node's page is modelled as a delete and an add.
- `Lifecycle` and `Mvcc` let the allocator take any page it may take; the order in which it prefers them is the subject of `FreeRuns`. In `FreelistSave` a put into the freeDB is one step, with the allocations it causes before or after it.
- A page write and the meta page write are atomic steps; `MDB_WRITEMAP`, `MDB_NOLOCK`, `MDB_PREVSNAPSHOT`, robust-mutex recovery and stale readers are not modelled.
- Spilling is modelled where nested commits need it; the choice of the pages to spill is not.
- Empty keys and keys above the maximum size are rejected before the modelled code.
- `readline`: growing the line buffer and lines with embedded NUL bytes are not modelled; a line is read up to its newline.
- `thpool_pause`, `thpool_resume` and `thpool_destroy`, which rest on signals and timeouts; a job is assumed to return.
- Allocation failures, operating-system errors other than a failing write in the copy, debug output, and the command-line programs around the modelled functions.
- Network, API, codec and file-system helper code of `libipfs` and `libp2p`.
