# atomkv in Dafny

atomkv is an embedded key-value store: a copy-on-write B+tree on slotted pages, readers that see the commit they
opened on, a page allocator that defers frees, and two meta pages that are published in turn. This project models
the default mode, `kUpdateInPlace`, and the log replay of `kWal`, and proves the properties the layers owe each other.

## How the model is laid out

| module | models |
|---|---|
| `Order` | the comparator, and what the tree needs of any comparator |
| `Nodes`, `NodeMoves` | the content of a node, its space, and the loops that split and merge nodes |
| `SlottedPages`, `NodeStores` | node.cpp on a byte array: the page refines the node contents of `Nodes`, and a store of such pages the store under the tree |
| `Trees`, `Tokens`, `Zipper` | the tree under a root page as a value: its order, its pages, its shape, paths through it |
| `FreeSpace`, `Pagers` | pager.cpp: free map, pending frees, allocation, release, rollback, the saved free list |
| `Steps`, `Shrinks`, `Balance`, `Leaves`, `Paths`, `Searching`, `Heights` | what one step of a tree operation does to the stored tree |
| `Shapes` | the tree an insertion or a deletion leads to, up to the ids of new pages, and what that means for its nodes |
| `BTrees` | btree.cpp and the descent of btree_iterator.cpp: class `BTree` on a `Pager` and a path stack |
| `Iteration` | `First`, `Next`, and loops from `begin()` and from `LowerBound` to `end()` |
| `Snapshots`, `Transactions`, `ViewCounts`, `TxManagers` | page accounting, snapshot isolation over all runs, tx_manager.cpp |
| `Metas`, `Crashes` | meta.cpp, and what a crash leaves |
| `Replay` | the replay loop of logger.cpp |

The code that changes things step by step is written as methods on classes with the source's fields. Their ghost
parameters name what the code cannot see: the tree `t` under the root, the path `fs` the stack stands for, and the
held pages `rest` that belong to no tree. The contracts use a few words throughout:

- `Holds(world, tree, h, rest)`: the root page id denotes the tree, every node is stored at its page, records and
  separators are strictly ordered, all leaves have depth `h`, nodes fit their pages, no node but the root is empty,
  transaction ids do not increase downwards, and the pages held are those of the tree, once each, and `rest`.
- `Denotes(tree)`: the ordered map the tree stands for.
- `Weak`, `Paired`, `Rising`, `Merged`: the states in between, while an insertion or deletion travels up the path.
- `Wrote(s, s')`: between two states a write transaction has allocated pages, freed pages and written pages of its
  own; every other page in use is as it was. Free pages were taken from the lowest up, and the file was grown only when
  there were none.
- `Entered`, `Risen`: the tree after an insertion at a leaf, and after a key and a right neighbour went upward.
  `Rebalanced`, `Settled`, `Separated`: the tree after a node lost a record or a slot. `PutMakes`, `DeleteMakes`: the
  whole operations, path copies included.

`PAGE_SIZE` and `COMPARATOR` are constants without a value: the results hold for every even page size from 0x100 to
below 0x8000 and for every total order on keys.

## Main results

1. `BTrees.BTree.Put`, `Delete` and `Get` refine an ordered map on every well-formed stored tree, through every split,
   borrow, merge, root change and the case where a new separator does not fit its parent. `PutMakes` and `DeleteMakes`
   say which tree results: where nodes are cut, which sibling lends or is merged and when, up to the ids of new pages.
2. `BTrees.BTree.CopyAllPagesByPath` copies just enough: the path becomes the transaction's, older trees stay whole
   (`Snapshots.FrozenTree`), and pages are neither lost, freed twice nor shared (`Snapshots.PageAccounting`). Only pages of
   older transactions on the path are moved.
3. `Transactions.SnapshotIsolation`: in every interleaving of write transactions and views, a view reads what was
   committed when it opened. The methods of `TxManagers.TxManager` are proved to be steps of that state machine, and
   `ViewGet`, `ViewScan` and `ViewScanFrom` read through a view accordingly. What a transaction freed waits after its
   commit, neither more nor less, and makes up the difference between the old tree and the new one.
4. `Pagers.Pager.Valid`: free, pending and held pages partition the file in every state; `Rollback` is exact; the saved
   free list loads back to what was free or pending.
5. `Crashes.CrashAtomicity`: a crash anywhere in a commit leaves the old or the new version, whole.
6. `SlottedPages.SlottedPage`: the byte page refines the sequence of records, compaction included, and
   `NodeStores.NodeStore` the page store that the tree writes.
7. `NodeMoves.SplitBranch`, `SplitLeaf`, `Balance`: every `assert(success)` of the splits, borrows and merges holds, under
   exactly stated conditions on key sizes.
8. `Iteration.VisitAll`: iteration visits the sorted map and ends. `Iteration.ScanFrom`: a loop from `LowerBound` visits the
   map from the key on, with the exact condition under which it does.
9. `Replay.PrefixRecovers`: any prefix of the log recovers exactly its committed transactions.
10. `Heights.HeightBound`: no reachable tree overflows the path stack.

## Where the code does not do what one would expect

- `Put` does not look at the result of `LeafNode::Update` (src/btree.cpp:494). When a value is overwritten by one for
  which its leaf has no room, the old value stays. `BTrees.BTree.Put` says exactly when (`StaysOld`);
  `BTrees.PutCanKeepOldValue` is a stored, ordered tree on which it happens; `BTrees.ShorterValueFits` says a value that is
  no longer is always written.
- The fallback of the branch split (src/btree.cpp:378-384) links a wrong child. `NodeMoves.SplitBranch` proves the
  split right if and only if its guard is false, `InlineKeysCanFallBack` gives a node on which it is true, in the order of
  the default comparator, and `QuarterKeysNeverFallBack` rules it out for keys that take at most a quarter of a node with
  their slot.
- A branch merge also needs room for the separator (src/btree.cpp:156-158). `Balance.MergeFitsIffShortKey` gives the
  exact bound: every merge the fill tests select fits if and only if the separator and its slot take at most
  `MAX_SEPARATOR`, a tenth of the node rounded up. The tree layer asks for such keys (`ShortKey`); values may fill a record
  up to `MaxInlineRecordSize`. Leaf borrow and leaf merge need no such bound (`LeafBorrowFits`, `LeafMergeFits`).
- `LowerBound` stays in the one leaf that may hold the key (src/btree_iterator.cpp:229-237). If all records of that leaf are
  below the key, its iterator is equal to `end()`, even when the next leaf has greater records:
  `Iteration.LowerBoundCanMiss` is such a tree. `BTrees.BTree.LowerBound` says that this is the only case, and
  `Iteration.ScanFrom` that a loop from it visits all records from the key on if and only if the leaf has one of them or
  the tree has none. `Iteration.Next` shows that `++` leads from there to the next leaf. In a root without records the
  iterator is neither equal to `end()` nor at a record (`stray` in `ScanFrom`).
- `FreeToMap` looks at the preceding interval only if one follows directly or none follows (src/pager.cpp:265-282). The
  contract of `FreeToMap` says in which cases it joins and in which it does not.
- `Commit` copies the transaction's meta before `SaveFreeList` changes it (src/tx_manager.cpp:110, 119), so the meta page
  never refers to the list that was just written. `TxManagers.TxManager.NoListSaved` says so of every state, and
  `TxManagers.TxManager.Reopen` that after opening the file again no page is free: the free and pending pages are free again
  if and only if there were none. The free list's round trip is therefore stated on `SaveFreeList` and `LoadFreeList`. The
  pages each commit writes its list to are referred to by nothing: those that were free before stay held
  (`TxManagers.TxManager.Commit` says which and how many), those past the end of the file are dropped.
- `Meta::Init` leaves txid 1 in memory while slot 0 holds 2 (src/meta.cpp:34-45). The first commit after it gets txid 2 too,
  and `Load` prefers the first slot: `Metas.FirstCommitIsLost`. From the second commit on publishing works
  (`SecondCommitIsCurrent`), and `PublishedIffNewer` gives the exact condition.
- `Load` reads `min_version` of the first meta page even if that page is broken (src/meta.cpp:58). The contract of
  `Metas.Meta.Load` shows it; an interrupted write by this code does not change that field.
- `Recover` compares a reference with itself at src/logger.cpp:208, so what follows never happens.

## Model

| member | source | states |
|---|---|---|
| `Order.CompareIsLexicographic` | include/atomkv/comparator.h:39-53 | the byte-array comparator computes lexicographic order, defined without memcmp, in all three outcomes |
| `Order.ByteArrayCompareIsTotalOrder` | include/atomkv/comparator.h:39-53 | it is a total order, which is all the tree layer assumes of a comparator |
| `Nodes.InsertMeaning` | src/node.cpp:438-465 | inserting into a branch adds one key at its place and one child on the side asked for |
| `Nodes.DeleteMeaning` | src/node.cpp:467-502 | deleting from a branch removes one key and the child on the side asked for |
| `NodeMoves.HalveLeaf` | src/btree.cpp:444-454 | the moving loop of the leaf split: no append fails, both halves are non-empty, together they are the old leaf, and the left one is the longest prefix of at most half a page |
| `NodeMoves.SplitLeaf` | src/btree.cpp:434-478 | for a full leaf and any inline record every append and insert succeeds, the retry included; left and right are the old records with the new one at its slot, cut where the moving loop and the retry leave it; the closing assert on counts holds |
| `NodeMoves.HalveBranch` | src/btree.cpp:356-374 | the moving loop of the branch split, with the tail child it leaves stale |
| `NodeMoves.SplitBranch` | src/btree.cpp:350-406 | left, the risen key and right are exactly the old branch with key and right child inserted, for both choices of the risen key, if and only if the fallback is not taken; and where the cut is |
| `NodeMoves.QuarterKeysNeverFallBack` | src/btree.cpp:376-384 | with key + slot at most a quarter of the node the fallback is not taken, at any insert position |
| `NodeMoves.InlineKeysCanFallBack` | src/btree.cpp:376-384 | a full node of inline keys in the default order, with distinct children, and a key and child for its end, on which the fallback is taken |
| `NodeMoves.MergeLeaves` | src/btree.cpp:264-272 | every append succeeds and the result is left's records and then right's |
| `NodeMoves.MergeBranches` | src/btree.cpp:156-166 | every append succeeds and the result is the inverse of a split: both branches joined by the key from the parent |
| `SlottedPages.SlottedPage.Compactify` | src/node.cpp:181-197 | every record reads as before, records stay apart, and free space is one piece of the size that was free in all |
| `SlottedPages.SlottedPage.CopyRecordRange` | src/node.cpp:283-305 | the copies lie one below the other from the end of the page and read like the originals |
| `SlottedPages.SlottedPage.RequestSpaceFor` | src/node.cpp:138-159 | succeeds exactly if the record and its slot fit after compaction; afterwards they fit without; the page is compacted only when that is needed and helps, and otherwise nothing changes |
| `SlottedPages.SlottedPage.StoreRecord` | src/node.cpp:237-281 | the record lies right below the others, no other byte changes, and the page is in order again |
| `SlottedPages.SlottedPage.UpdateRecord` | src/node.cpp:417-432 | either the new record is in place, or slots, bytes and header are as before |
| `SlottedPages.SlottedPage.LeafInsert` | src/node.cpp:564-574 | inserts the record into the leaf's sequence, exactly if there is room |
| `SlottedPages.SlottedPage.LeafUpdate` | src/node.cpp:545-558 | replaces the record, exactly if there is room once the old one is out |
| `SlottedPages.SlottedPage.LeafDelete` | src/node.cpp:576-595 | removes the record from the leaf's sequence |
| `SlottedPages.SlottedPage.BranchInsert` | src/node.cpp:438-465 | acts on the byte page as `Branch.Insert` acts on its content, exactly if there is room |
| `SlottedPages.SlottedPage.BranchUpdate` | src/node.cpp:417-432 | replaces the key of a slot, exactly if there is room |
| `SlottedPages.SlottedPage.BranchDelete` | src/node.cpp:467-502 | acts on the byte page as `Branch.Delete` acts on its content |
| `SlottedPages.SlottedPage.SetLeftChild` | src/node.cpp:363-370 | acts on the byte page as `Branch.SetChild` acts on its content |
| `SlottedPages.SlottedPage.Copy` | src/node.cpp:82-93 | a byte copy reads like the original, under the new transaction id |
| `NodeStores.NodeStore.LeafInsert` | src/node.cpp:564-574 | on a store of byte pages: exactly the change of the page store that the tree makes for an insertion with room, otherwise none |
| `NodeStores.NodeStore.LeafUpdate` | src/node.cpp:545-558 | the same for an update, under the same condition as in the tree |
| `NodeStores.NodeStore.LeafDelete` | src/node.cpp:576-595 | the same for a deletion |
| `NodeStores.NodeStore.BranchInsert` | src/node.cpp:438-465 | the same for an insertion into a branch |
| `NodeStores.NodeStore.BranchUpdate` | src/node.cpp:417-432 | the same for a new separator |
| `NodeStores.NodeStore.BranchDelete` | src/node.cpp:467-502 | the same for a deletion from a branch |
| `NodeStores.NodeStore.SetLeftChild` | src/node.cpp:363-370 | the same for a child link |
| `NodeStores.NodeStore.BuildLeaf` | src/node.cpp:509-519 | an empty leaf page of the transaction in the store |
| `NodeStores.NodeStore.BuildBranch` | src/node.cpp:340-351 | a branch page without keys in the store |
| `NodeStores.NodeStore.CopyNode` | src/node.cpp:82-93 | the page's content on another page, under the new transaction id |
| `SlottedPages.SlottedPage.UsedSpace` | src/node.cpp:76-80 | the numerator of the fill rate is the sum of record and slot sizes of the content |
| `SlottedPages.PackedLaid` | src/node.cpp:283-305 | compaction moves records apart and below nothing but the end of the page |
| `SlottedPages.InsertedCells` | src/node.cpp:438-465 | storing below all records and moving in a slot is an insertion into what the page reads as |
| `Trees.FlatPlug` | src/btree.cpp:417-432 | the order of a tree is what stands left of a path, the subtree at its end, what stands right of it |
| `Trees.InStoreReplace` | src/btree_iterator.cpp:282-291 | replacing the subtree at the end of a path by another on the same page keeps the whole tree stored |
| `Tokens.InsertIntoRun` | src/btree.cpp:499-502 | a record entered where it was searched keeps the order and is entered into the map |
| `Tokens.RemoveFromRun` | src/btree.cpp:277-279 | a record taken out keeps the order and leaves the map without its key |
| `Tokens.ReplaceInRun` | src/btree.cpp:492-497 | a record replaced by one with the same key keeps the order and changes its value in the map |
| `Tokens.Separate` | src/btree.cpp:507-509 | the first key of a right half fits between the halves and does not change the map |
| `FreeSpace.FreedBetween` | src/pager.cpp:265-282 | a freed interval lies between its neighbours in the free map |
| `FreeSpace.OnceIsDisjoint` | src/pager.cpp:257-263 | when no page is free twice, free intervals are pairwise disjoint |
| `Pagers.FirstFitIsLowest` | src/pager.cpp:226-253 | the interval taken is large enough and no lower one is |
| `Pagers.Pager.AllocFromMap` | src/pager.cpp:226-255 | takes the front of the lowest interval that is large enough, and nothing exactly if none is; free, pending and held pages still partition the file |
| `Pagers.Pager.Alloc` | src/pager.cpp:80-98 | from the free map, else at the end of the file; pages handed out were not in use; fails exactly when no interval fits and page ids run out |
| `Pagers.Pager.NewPage` | src/pager.cpp:80-98 | a new page is the first of the lowest free interval, and one at the end of the file only if no page is free |
| `Pagers.Pager.Free` | src/pager.cpp:100-111 | the pages move from held to those that wait under this transaction |
| `Pagers.Pager.FreeToMap` | src/pager.cpp:257-283 | the free map stays sorted and gains just these pages; the following interval is always joined, the preceding one exactly if one follows directly or none follows |
| `Pagers.Pager.FreeAllToMap` | src/pager.cpp:132-134 | after freeing a vector of intervals the free map has gained just their pages; each of them, and each interval that was free, lies within one free interval |
| `Pagers.ReleasedFits` | src/pager.cpp:226-253 | a run no longer than one released interval can be taken from the free map |
| `Pagers.Pager.Release` | src/pager.cpp:126-137 | exactly the frees of transactions before the bound become free |
| `Pagers.Pager.Rollback` | src/pager.cpp:67-78 | after any allocations and frees, free pages, other transactions' frees, held pages and page count are as when the transaction began |
| `Pagers.Pager.CopyPage` | src/pager.cpp:113-119 | the content on a new page of this transaction, taken as `NewPage` says, the old page waiting for release |
| `Pagers.Pager.SaveFreeList` | src/pager.cpp:157-195 | reading the list gives exactly the pages free or pending after its own allocation, the old list's included and the new one's not; the pages reserved are the fewest that hold the pairs, taken from the lowest interval that has them or past the end; no page in use is overwritten |
| `Pagers.Pager.PairsInFile` | src/pager.cpp:167-178 | a file below the page id limit always has room for its list |
| `Pagers.Pager.LoadFreeList` | src/pager.cpp:139-155 | the free map then holds exactly the pages listed, all others are held |
| `Pagers.Pager.SavedListLoads` | src/pager.cpp:139-195 | a list that was saved meets what loading asks for |
| `Pagers.OpenPager` | src/pager.cpp:139-155 | opening a file restores the allocator its list describes |
| `Searching.LowerBoundOf` | src/node.cpp:60-74 | the slot with smaller keys before it and no smaller key from it on, and whether it has the key |
| `Searching.AroundChild` | src/btree_iterator.cpp:208-247 | each step down keeps everything left of the path at most the key and everything right of it above |
| `Searching.FoundIsInMap` | src/btree_iterator.cpp:229-242 | what the leaf search finds is what the map holds at the key, and if it finds nothing the map has no such key |
| `Searching.LeastInMap` | src/btree_iterator.cpp:229-242 | the record at the lower bound of the leaf is the least of the whole map that is not below the key |
| `Heights.HeightBound` | include/atomkv/stack.h:56-59 | every branch has two children or more, so a tree in a file below 2^31 pages is less than 30 high and the path stack of 32 never overflows |
| `BTrees.BTree.LowerBound` | src/btree.cpp:30-37 | the stack is the path to the only leaf that may hold the key; the iterator is at the least record of the map not below the key, unless the leaf has none: `kInvalid` exactly if it has records and all are below the key; `kEq` exactly if the map has the key |
| `BTrees.BTree.Down` | src/btree_iterator.cpp:208-247 | one step of the descent; the push finds room on the stack |
| `Paths.LinkedTx` | src/btree_iterator.cpp:287-290 | transaction ids never increase along a path, which justifies the early return |
| `Paths.ClimbOwned` | src/btree_iterator.cpp:281-291 | stopping at an owned branch leaves a path that is wholly the transaction's, with the same order |
| `BTrees.BTree.CopyAllPagesByPath` | src/btree_iterator.cpp:269-304 | afterwards every page on the path is the transaction's, the tree reads the same, the stack follows, replaced pages are freed; pages of the transaction stay and just the others move, to pages not in use; if the leaf was owned nothing changed |
| `BTrees.BTree.HoldsReadable` | src/btree.cpp:30-37 | a write transaction's tree can be read from its root within the stack's bound |
| `BTrees.BTree.PutUp` | src/btree.cpp:408-432 | a key and a right neighbour are entered upward through any number of splits and a new root; the tree reads as before with them in place, and is the one `Risen` describes: only branches without room are cut |
| `BTrees.BTree.PutIntoParent` | src/btree.cpp:417-431 | one level of it: the parent takes the key, or its halves take the place of the neighbours one level up |
| `BTrees.BTree.GetSibling` | src/btree.cpp:138-154 | the neighbour under the same parent, right of the node or for the last child left of it, and the slot of the key between |
| `BTrees.BTree.OwnSibling` | src/btree.cpp:191-199 | the sibling becomes a page of the transaction and the tree reads the same; if it was one already nothing changes |
| `BTrees.BTree.BorrowBranch` | src/btree.cpp:200-238 | one slot goes through the parent to the node below 40%; no insert fails; the order is kept |
| `BTrees.BTree.RebalanceBranch` | src/btree.cpp:182-262 | a branch that lost a slot stays only if it is 40% full; otherwise the sibling lends exactly if it can, and is merged with it exactly if it cannot |
| `BTrees.BTree.SetSeparator` | src/btree.cpp:239-250 | the new separator replaces the old one, or the old one is deleted and the new one inserted upward; either way the tree reads the same |
| `BTrees.BTree.MergeBranchPages` | src/btree.cpp:253-258 | the merge fits, and the right page is freed |
| `BTrees.BTree.DeleteUp` | src/btree.cpp:168-262 | dropping a key and a child upward, with borrow, merge and root collapse, ends in a well-formed tree with the same order |
| `BTrees.BTree.DeleteAt` | src/btree.cpp:274-348 | removing the record under the iterator ends in a well-formed tree of the map without the key; a leaf below 40% that is not the root borrows exactly if the sibling can lend and is merged otherwise, and so on upward (`Rebalanced`) |
| `BTrees.BTree.PutAt` | src/btree.cpp:480-510 | update, insert, or split and insert upward at the leaf, with the map and the tree that result; a split only without room |
| `BTrees.BTree.Put` | src/btree.cpp:53-57 | the tree is well-formed and denotes the map with the record in it; only if the key was there and its leaf has no room for the value, the map as it was; the tree is the one `PutMakes` describes; if the file grew no page is free |
| `BTrees.BTree.Delete` | src/btree.cpp:66-74 | says whether the key was there; the tree is well-formed and denotes the map without it, and is the one `DeleteMakes` describes; if the file grew no page is free |
| `Shapes.DeleteRefills` | src/btree.cpp:294-347 | when a deletion leaves the key's leaf below 40% under a parent, the new tree has a leaf with as many records as that leaf had, or more |
| `Shapes.WeakLeafIsRefilled` | src/btree.cpp:294-347 | such a leaf has one record more on its own page if the sibling can lend, and otherwise one leaf has the records of both |
| `Shapes.WeakBranchIsRefilled` | src/btree.cpp:191-258 | the same for a branch and its slots |
| `Shapes.RebalancedKids` | src/btree.cpp:168-262 | no child of a rebalanced node gets lost, wherever it hangs afterwards |
| `Shapes.RisenUnder` | src/btree.cpp:408-432 | both neighbours are in the tree after any splits above them |
| `BTrees.BTree.Get` | src/btree.cpp:39-45 | the value the map under a root page holds at the key, or none; the root is the write transaction's or a view's |
| `BTrees.ShorterValueFits` | src/btree.cpp:492-496 | a value no longer than the one it replaces is always written |
| `BTrees.PutCanKeepOldValue` | src/btree.cpp:494 | a stored tree, well-formed and ordered, a key in it and an inline record with that key, for which `Put` leaves the old value |
| `Balance.LeafBorrowFits` | src/btree.cpp:304-323 | a leaf of inline records below 40% takes any inline record |
| `Balance.LeafMergeFits` | src/btree.cpp:339-344 | such a leaf and a sibling of inline records that cannot lend fit one leaf |
| `Balance.MergeFitsIffShortKey` | src/btree.cpp:156-166 | every merge of branches of inline keys that the fill tests select has room for the separator if and only if separator and slot take at most `MAX_SEPARATOR` |
| `Balance.LongKeyOverflows` | src/btree.cpp:156-166 | for a longer separator, two neighbours that are sent to a merge that does not fit |
| `Balance.BranchMergeFits` | src/btree.cpp:253-258 | in a tree, whose keys are short, a branch below 40%, a sibling that cannot lend and the key between fit one branch, again with short keys |
| `Nodes.TenthIsShort` | src/btree.cpp:156-166 | a key that takes at most a tenth of a node with its slot is within that bound |
| `Shrinks.Collapse` | src/btree.cpp:174-180 | a root without keys gives way to its only child |
| `Steps.RiseSplit` | src/btree.cpp:429-431 | the halves of a split parent take the place of the two neighbours one level up |
| `Snapshots.FrozenTree` | src/tx_impl.cpp:67-75 | a tree of an older transaction on pages in use is stored unchanged after any changes by a write transaction |
| `Snapshots.PageAccounting` | src/btree.cpp:264-272 | for every `Put` and `Delete`, pages reachable after and pages freed are disjoint and are together the pages reachable before and those allocated; none is freed twice or reachable twice |
| `Iteration.First` | src/btree_iterator.cpp:120-139 | the iterator is at the first record below the page |
| `Iteration.Next` | src/btree_iterator.cpp:160-181 | the iterator is at the record that follows, or empty after the last one; within a leaf the status stays, in another leaf it is `kIter`; from past the end of a leaf it goes to the next leaf |
| `Iteration.VisitAll` | src/btree_iterator.cpp:160-181 | from begin to end every record is visited once, in order, and the loop ends |
| `Iteration.ScanFrom` | src/btree.cpp:30-37 | a loop from `LowerBound` to `end()` visits exactly the records not below the key, in order, and ends, if and only if the leaf of the key has one of them or the tree has none |
| `Iteration.ScannedIsMap` | src/btree.cpp:76-84 | what such a loop visits is the map's keys from the key on, in strictly ascending order |
| `Iteration.LowerBoundCanMiss` | src/btree_iterator.cpp:229-237 | a stored, ordered tree and a key for which `LowerBound` is equal to `end()` although there is a greater record |
| `Iteration.VisitedIsMap` | src/btree.cpp:76-84 | what is visited is the map, in strictly ascending key order |
| `Transactions.CopyNeededInPlace` | src/tx_impl.cpp:67-75 | in update-in-place mode a page may be written in place exactly if it is the open transaction's |
| `Transactions.KeptAfterRelease` | src/tx_manager.cpp:52-61 | releasing frees below the bound frees no page of a version that a view may look at |
| `Transactions.ReplacedPagesWait` | src/tx_manager.cpp:107-128 | every page of the old version that the new one does not have waits for its release after the commit |
| `Transactions.InvNext` | src/tx_manager.cpp:34-128 | begin, write, commit, rollback, open view and close view all keep: the pages of the last commit and of every open view are in use, stored, and not freed by their transaction or an older one |
| `Transactions.SnapshotIsolation` | src/tx_manager.cpp:34-128 | in every run, as long as a view is open, its root denotes the version committed when it opened and every page reachable from it has the content it had then |
| `Transactions.ViewPagesInUse` | src/tx_manager.cpp:65-77 | no page a view can reach is free while it is open |
| `ViewCounts.CountsAdd` | src/tx_manager.cpp:68-75 | the view map counts the open views after one more |
| `ViewCounts.CountsDrop` | src/tx_manager.cpp:98-104 | the view map has an entry for an open view, and counts right after it ends |
| `ViewCounts.OldestIsFirst` | src/tx_manager.cpp:52-60 | the first entry of the map is the oldest open view |
| `TxManagers.TxManager.constructor` | src/meta.cpp:26-46 | a new database is in a valid state |
| `TxManagers.TxManager.Update` | src/tx_manager.cpp:34-63 | is the begin step, with the bound taken from the oldest view |
| `TxManagers.TxManager.View` | src/tx_manager.cpp:65-77 | is the step that opens a view on the last commit |
| `TxManagers.TxManager.EndView` | src/tx_manager.cpp:95-105 | is the step that closes it |
| `TxManagers.TxManager.ViewGet` | src/btree.cpp:39-45 | in a view, at any time while it is open: what the commit it opened on has at the key |
| `TxManagers.TxManager.ViewScan` | src/btree.cpp:76-84 | in a view: the records of the commit it opened on, in order |
| `TxManagers.TxManager.ViewScanFrom` | src/bucket_impl.cpp:36-38 | in a view: the records of its commit from a key on, as `ScanFrom` says |
| `TxManagers.TxManager.Get` | src/btree.cpp:39-45 | in the write transaction: what its own tree has at the key |
| `TxManagers.TxManager.Put` | src/bucket_impl.cpp:38-46 | is a write step, and does to the map what `BTree.Put` does |
| `TxManagers.TxManager.Delete` | src/bucket_impl.cpp:56-60 | is a write step, and does to the map what `BTree.Delete` does |
| `TxManagers.TxManager.RollBack` | src/tx_manager.cpp:79-93 | is the rollback step: the state the transaction began from |
| `TxManagers.TxManager.Commit` | src/tx_manager.cpp:107-128 | is the commit step: the transaction's tree becomes the version that views open on; the frees that wait are those that waited before and the transaction's, and nothing else; the free and held pages change by the list's pages only |
| `TxManagers.TxManager.NoListSaved` | src/tx_manager.cpp:110-119 | in every state the database's meta refers to no saved list |
| `TxManagers.TxManager.Reopen` | src/pager.cpp:139-155 | opening the file again finds no page free; the pages that were free or pending are free again if and only if there were none |
| `Metas.Meta.Load` | src/meta.cpp:48-97 | picks the newest meta page that is whole, and fails in exactly the cases listed |
| `Metas.Meta.Publish` | src/tx_manager.cpp:110-123 | only the page that is not current is written |
| `Metas.TornWrite` | src/meta.cpp:99-110 | a meta write interrupted anywhere leaves the old meta current, or the new one if it was complete |
| `Metas.FirstCommitIsLost` | src/meta.cpp:26-46 | after `Init` the first commit is not what `Load` picks |
| `Metas.PublishedIffNewer` | src/meta.cpp:62-70 | a completed commit is picked if and only if its txid is greater than the current page's, or equal and in the first page |
| `Metas.SecondCommitIsCurrent` | src/meta.cpp:26-46 | from the second commit on the condition for later commits holds |
| `Crashes.CommittedSurvives` | src/pager.cpp:60-64 | whatever pages written since the last sync hold after a crash, the committed version is whole |
| `Crashes.CrashAtomicity` | src/tx_manager.cpp:107-128 | for any run since the last sync and the commit step that follows it: a crash anywhere in the commit lets `Load` find the old version or the new one, the new one only if its meta page was written completely, and every page reachable from it is intact |
| `Crashes.CommitWritesFirst` | src/tx_manager.cpp:118-123 | the pages a commit writes before it publishes are one more write of the transaction |
| `Replay.Recover` | src/logger.cpp:64-206 | the loop computes what reading the log record by record says, exceptions included |
| `Replay.PrefixRecovers` | src/logger.cpp:64-206 | any record-level prefix of a log of root-bucket transactions recovers without an exception to the base with exactly the transactions whose commit record is in the prefix, and their number added to the txid |
| `Replay.CheckpointSkips` | src/logger.cpp:87-97 | a base newer than the log's first record skips the log |
| `Replay.BytesRoundTrip` | src/logger.cpp:243-250 | the txid in the log's first record reads back as it was written |
| `Replay.BytesRecover` | src/logger.cpp:64-206 | logs given byte by byte, for every key and value: a committed put or delete is applied once, one that was rolled back is not |
| `Replay.Unrecoverable` | src/logger.cpp:87-125 | the records that make recovery throw, whatever follows |

## Left out

- Overflow records (src/node.cpp:221-268): `Update` neither frees old overflow pages nor counts them; records are inline.
- SlottedPages.SlottedPage.RequestSpaceFor: for inline records only, and so for the operations that call it.
- SlottedPages.SlottedPage.UpdateRecord: for inline records only.
- SlottedPages.SlottedPage.LeafInsert: for inline records only.
- SlottedPages.SlottedPage.LeafUpdate: for inline records only.
- SlottedPages.SlottedPage.BranchInsert: for inline keys only.
- SlottedPages.SlottedPage.BranchUpdate: for inline keys only.
- SlottedPages.SlottedPage.StoreRecord: without the overflow branch, and without the size exceptions, which inline records do not reach.
- Pagers.Pager.SaveFreeList: does not model freeing a saved list of no pages, which would put an empty interval among the frees.
- Replay.Recover: sub-bucket records and other buckets' records end the replay as a failure.
- The `is_bucket` flag of a slot, nested buckets, and the sub-bucket loop of `TxImpl::Commit`; the user bucket is the only one.
- `BTree::Insert`, which allows equal keys, and `BTree::Update` through an iterator, whose key span aliases the page it changes.
- Key spans that point into pages: keys are values here, so that a span still reads the deleted record's bytes is not modelled.
- `Last`, `Prev` and postfix increments; `Last` does not go down to the tail child (src/btree_iterator.cpp:141-158).
- Page reuse in `kWal` mode, and what happens after `Recover`'s loop (src/logger.cpp:202-217); sub-bucket log records; the `Logger` destructor.
- The slot array and the node header as bytes of the page: `SlottedPage` keeps them as fields next to the record area, with the space they take.
- BTrees.BTree.Put: does not model page ids running out halfway: it asks for 64 pages below the limit of 2^31, and for a key within `MAX_SEPARATOR`. The exception would leave the tree half changed, for a rollback to undo. `Alloc` models the failure itself.
- BTrees.BTree.Delete: likewise asks for 100 pages.
- BTrees.BTree.PutAt: likewise, and for an inline record whose key is within `MAX_SEPARATOR`, as `BTrees.BTree.Put`: with longer keys a later merge need not fit.
- TxManagers.TxManager.Put: as `BTrees.BTree.Put`.
- TxManagers.TxManager.Delete: as `BTrees.BTree.Delete`.
- TxManagers.TxManager.Commit: does not model a file of more than 2^31 pages.
- Allocations and frees of no pages, but for a free list without pairs.
- `Commit` in a database whose meta page refers to a saved list: no commit of this code writes such a meta page, and with one each commit would free the list again.
- The mapping and its growth, locks, shared memory, opening files; every method under `meta_lock` is one step.
- The CRC: a meta page is whole or it is not, and a mixture of two metas' bytes is not whole.
- `Stack` as an array with a position: the stack is a sequence, and the bound of 32 is asserted where the code pushes.
- Integer comparators; `UInt64Comparator` is defined with the 32-bit function (include/atomkv/comparator.h:56).
- TxManagers.TxManager.Update: does not model a txid that overflows, where the exception is thrown with the lock held and nothing can follow.
