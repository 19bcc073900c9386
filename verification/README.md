# Storage, transactions and booking

This project models a small database server written in C, with a seat booking engine on top, and proves what its parts
promise one another. `dafny verify dfyconfig.toml` checks all of it.

| files | part |
|---|---|
| `BTreeModel`, `BTreeHistory` | the B+ tree as a value: a sorted map under any history, with bounded height |
| `BTree`, `BTreeIndex`, `BTreeFile` | the same tree in place: nodes with arrays and a leaf chain; range scan; save and open |
| `PoolMap`, `PoolList`, `BufferPool`, `PoolRuns` | the buffer pool: probing hash map, LRU list, frames; equal to plain memory over any run |
| `Page`, `TablePages`, `TableFile`, `TableScan`, `Table` | slotted pages behind the pool, and the table operations on pool, pages, index and log together |
| `TableModel`, `TableHistory` | what those operations mean: one map that index, pages and log all describe |
| `Wal` | the write-ahead log in bytes: framing, recovery of a cut log, numbering over sessions |
| `LockModel`, `LockSafety`, `LockOwners`, `LockCapacity`, `LockReplies` | lock and transaction managers as a system of mutex-protected sections |
| `BookingModel`, `BookingSafety`, `BookingRefinement`, `BookingRace`, `BookingProgress`, `BookingSeats`, `BookingAlone`, `BookingAnswers` | booking, cancelling and creating events as interleaved threads; what each answer means; the revenue report |
| `ThreadPool` | the bounded pool of workers: its sections as a step system, its linked queue as a class |
| `Common`, `Bytes` | options, sizes, sequence facts; little-endian numbers |

Code that changes things in place is modelled in place: `Node`, `IndexTree`, `File`, `BufferPool`, `Disk`, `Table`, `Wal`
and `TaskQueue` are classes whose methods are proved against functions on values, and the theorems are about those
functions. Concurrency is modelled as steps: a section under one mutex is one step, a thread that waits is in a state of
its own. The booking threads take a lock in one step; `LockOwners.RunsAreAtomic` is the reason they may.

## Findings

- A cancellation can overtake the booking it names. `booking_book_seats` does not lock its new booking row
  (server/core/booking_engine.c:165), and `booking_cancel` does not compare the number of rows its scan finds with
  `booking.seat_count` (server/core/booking_engine.c:264-265). If the scan comes too early, the cancellation marks the
  booking cancelled, both calls succeed, and the last seat stays booked for nobody. `BookingRace.RaceGoesWrong` is such a
  run; `BookingRace.SeatsRightExactly` and `BookingSeats.BalancedExactly` show that incomplete scans are the only cause.
  No interleaving books a seat twice (`BookingSafety.RunsNeverDoubleBook`).
- `table_update` and `table_insert` take the record as it is (server/storage/table.c:429-485 and 271-367). An image with
  another id, or with the deletion flag set, leaves index and pages in disagreement; `TableModel.UpdateKeeps` and
  `TableModel.InsertKeeps` give the exact condition, `TableModel.ForeignImage` an update that fails it. The booking engine
  and the event manager meet it.
- `wal_open` counts a record as soon as its header is whole (server/storage/wal.c:195-214), `wal_recover` only with both
  images. After a cut behind a header the next number skips one: `Wal.RecoverAndOpen`, `Wal.TornRecordSkips`.
- `txn_lock` looks whether a transaction's array of 64 locks has room, gives up the mutex to wait for the record, and
  registers the lock without looking again (server/txn/txn_manager.c:244-268). Threads that share a transaction can write
  past the array: `LockCapacity.SharedOverflows`. `LockCapacity.FitsExactly` gives the exact condition, and with one thread
  locking for each transaction, as in the booking engine, it always holds: `LockCapacity.OneThreadEach`.

## Model

| member | source | states |
|---|---|---|
| BTreeModel.InsertSound | server/storage/btree.c:238-303 | below any node, insertion refuses exactly the keys already there, and otherwise leaves one valid tree or two valid halves around a separator whose entries are the old ones with the new pair in its sorted place |
| BTreeModel.PromotedPosition | server/storage/btree.c:277-294 | a promoted key that lies strictly inside the bounds of child `i` has lower bound `i` in the parent: the search for its place finds the child that was descended into |
| BTreeModel.DeleteSound | server/storage/btree.c:477-502 | a lazy delete leaves separators behind, yet the tree stays ordered and balanced and loses just that key |
| BTreeModel.UpdateSound | server/storage/btree.c:504-516 | an update keeps the tree valid and changes the value of that key only |
| BTreeModel.EntriesSorted | server/storage/btree.c:522-544 | in an ordered tree the leaves from left to right list the keys in strictly ascending order, within the bounds |
| BTreeHistory.RunRefines | server/storage/btree.c:434-516 | any history of insert, search, delete and update gives the replies and final contents of a plain map; `size` is the number of pairs modulo 2^32; the tree is valid at the end |
| BTreeHistory.RunOccupied | server/storage/btree.c:170-303 | over any history every non-root internal node keeps at least ceil((order-1)/2) children, no node keeps more than order-2 keys, all leaves share one depth, and each successful insert adds at most one leaf |
| BTreeHistory.HeightBound | server/storage/btree.c:434-460 | a tree of height h >= 1 after any history has at least 2*ceil((order-1)/2)^(h-1) leaves, and these are at most those it started with plus the successful inserts: lookups are logarithmic |
| BTreeHistory.RangeMeans | server/storage/btree.c:522-544 | what a range scan of a valid index lists, said of the map it stands for: the values of the `max` smallest keys with low <= key <= high, ascending, and of all of them if there are no more |
| BTree.KeyLowerBound | server/storage/btree.c:94-105 | the binary search finds the one index with all smaller keys before it and all others from it on |
| BTree.SplitLeafInPlace | server/storage/btree.c:170-198 | the node keeps the lower half, a fresh leaf holds the upper half and follows it in the chain, and the copied-up key is the first of the upper half |
| BTree.SplitInnerInPlace | server/storage/btree.c:206-232 | the node keeps the lower half of keys and children, a fresh node gets the upper half, and the middle key is in neither |
| BTree.InsertRecursive | server/storage/btree.c:238-303 | the in-place recursion, through any cascade of splits, leaves nodes that represent exactly what insertion does to the tree as a value; it touches only the nodes of that subtree and new ones, and puts at most one new leaf into the chain, right after the leaf that split |
| BTreeIndex.ActsOnLeaf | server/storage/btree.c:123-147 | search, delete and update of a key concern only the leaf the descent ends in |
| BTreeIndex.FindLeaf | server/storage/btree.c:123-147 | the descent over child pointers ends at the leaf whose key range owns the key |
| BTreeIndex.IndexTree.constructor | server/storage/btree.c:309-340 | a new index is valid and empty |
| BTreeIndex.IndexTree.Insert | server/storage/btree.c:434-460 | succeeds exactly when the key is new, and then the map has just that pair more; nodes, leaf chain and `size` still represent it, a duplicate changes nothing |
| BTreeIndex.IndexTree.Search | server/storage/btree.c:462-475 | the value stored under the key, or none, for every key |
| BTreeIndex.IndexTree.Delete | server/storage/btree.c:477-502 | succeeds exactly when the key is there, and then the map has just that key less, in the same nodes |
| BTreeIndex.IndexTree.Update | server/storage/btree.c:504-516 | succeeds exactly when the key is there, and then the map has the new value under it, in the same nodes |
| BTreeIndex.IndexTree.RangeScan | server/storage/btree.c:522-544 | the walk along the leaf chain, emptied leaves included, yields the values of the `max` smallest keys with low <= key <= high, both bounds included, ascending, and of all of them if there are no more |
| BTreeFile.SameNode | server/storage/btree.c:557-629 | the pre-order node format is self-delimiting and unambiguous: two trees read from the same bytes are equal, and so is what follows them |
| BTreeFile.WriteNode | server/storage/btree.c:557-584 | a node and all below it are written as their pre-order image, appended to the file |
| BTreeFile.ReadNode | server/storage/btree.c:590-629 | reading takes exactly the bytes that were written and builds separate new nodes for the same tree |
| BTreeFile.LinkInLinks | server/storage/btree.c:393-408 | linking each leaf to the one visited after it turns the leaves into one chain that ends after the last |
| BTreeFile.Save | server/storage/btree.c:631-665 | the file is the image of order, size and nodes; the index is unchanged and clean |
| BTreeFile.Open | server/storage/btree.c:342-417 | a file too short for the header or with another magic number is refused; a saved index comes back with the same order, size, nodes and leaf chain, and the file is read to its end |
| BTreeFile.Reopen | server/storage/btree.c:342-665 | saving and opening gives an index with the same contents, tree shape, size and order |
| PoolMap.MapFind | server/storage/buffer_pool.c:114-130 | linear probing finds a key exactly when it is stored, at the bucket that maps it to its frame |
| PoolMap.Path | server/storage/buffer_pool.c:104-130 | every stored key lies on its probe path with no vacant bucket before it |
| PoolMap.MapInsert | server/storage/buffer_pool.c:136-155 | the entry goes to the first vacant bucket on its probe path, no other bucket changes |
| PoolMap.MapRemove | server/storage/buffer_pool.c:162-178 | after the bucket is cleared and the rest of the cluster reinserted, exactly the other keys are findable, at their frames, and no entry has moved further from its home; the walk round the cluster ends |
| PoolMap.Target | server/storage/buffer_pool.c:167-177 | a reinserted entry lands at or before its old place in the cluster |
| BufferPool.LightlyLoaded | server/storage/buffer_pool.c:285-345 | the pool never stores more keys than frames, so the hash map is at most a quarter full |
| PoolList.UnlinkOk | server/storage/buffer_pool.c:188-204 | taking a frame out leaves the doubly linked list of the others, in order, with head and tail right |
| PoolList.PushOk | server/storage/buffer_pool.c:207-219 | pushing a frame puts it at the front of the doubly linked list |
| BufferPool.BufferPool.constructor | server/storage/buffer_pool.c:285-345 | a new pool is consistent and caches nothing |
| BufferPool.BufferPool.FindVictim | server/storage/buffer_pool.c:239-279 | it fails exactly when every frame is pinned; an unused frame is taken before any page is given up; otherwise the least recently fetched unpinned page goes, is written out first if dirty, and no client sees a difference |
| BufferPool.BufferPool.Fetch | server/storage/buffer_pool.c:366-424 | it fails exactly when the page is not cached and every frame is pinned or the file is not open; otherwise the buffer holds what a plain map from (file, page) to bytes holds; no other page changes for its clients; the page is first in the LRU list; a cached page counts as a hit, any other as a miss |
| BufferPool.BufferPool.Unpin | server/storage/buffer_pool.c:428-454 | one pin less, never below zero; cache and disk as before; given that a changed page was marked dirty, every clean unpinned frame still equals disk |
| BufferPool.BufferPool.MarkDirty | server/storage/buffer_pool.c:456-475 | the page is safe from loss on eviction from now on; nothing else changes |
| BufferPool.BufferPool.FlushPage | server/storage/buffer_pool.c:477-512 | false exactly when the page is not cached; a dirty page reaches the disk; the page is clean afterwards, no other page of the disk changes, clients see no difference |
| BufferPool.BufferPool.FlushAll | server/storage/buffer_pool.c:514-542 | afterwards every frame is clean and the disk equals what clients see for every page whose changes were marked; pages that were not dirty are as they were on disk |
| PoolRuns.Execute | server/storage/buffer_pool.c:366-542 | any list of fetches, writes, marks, unpins and flushes by a client that pins before writing, marks before unpinning and pins fewer pages than there are frames, carried out on the pool, has the replies and the final contents of plain memory; every fetch is served; the LRU list is in order of last fetches |
| PoolRuns.FetchKeepsTime | server/storage/buffer_pool.c:222-226 | a fetch keeps the LRU list in order of last fetches |
| PoolRuns.VictimIsOldest | server/storage/buffer_pool.c:239-279 | the page given up is the unpinned page whose last fetch is longest ago |
| PoolRuns.NeverOut | server/storage/buffer_pool.c:239-279 | while fewer pages are pinned than there are frames, a frame can be found: the table layer, which pins one page at a time, never runs out |
| BufferPool.Disk.Read | server/storage/page.c:119-145 | the bytes last written to the page; zeros for a page beyond the end of the file |
| Page.InitHeader | server/storage/page.c:203-215 | the page carries its number, holds no record, its free space begins behind the header, and every other byte but the record size is zero |
| Page.MostThatFit | server/storage/page.c:315-319 | the number of records a page takes is the largest that fits behind the header |
| Page.InsertRecord | server/storage/page.c:217-243 | refused, with nothing changed, exactly when the page is full; otherwise the record is last, in the slot returned, and all earlier records stay; of the header, the record count grows by one, the free space offset moves behind the record, the dirty flag is set, and page id, record size and the rest stay |
| Page.GetRecord | server/storage/page.c:245-259 | the record in a slot in use, nothing for any other slot |
| Page.UpdateRecord | server/storage/page.c:261-276 | the record in that slot is replaced byte for byte and no other record changes; of the header only the dirty flag is set; refused, with nothing changed, for a slot not in use |
| Page.MarkDeleted | server/storage/table.c:72-77 | one byte of one record is set, no other record and no byte of the header changes |
| TablePages.Take | server/storage/table.c:284-350 | while nothing is pinned a fetch cannot fail, and the buffer is the page as clients see it |
| TablePages.AllocPage | server/storage/page.c:159-183 | a fresh page with the number of its place in the file, written straight to disk, is seen through the pool as it was written, because the pool does not cache pages beyond the end of the file |
| LockSafety.FindEntry | server/txn/lock_manager.c:71-81 | whatever else hashes to the bucket, the search finds the one entry of the record, or none exactly when there is none |
| LockSafety.MoveInv | server/txn/lock_manager.c:158-244 | every mutex-protected section of every thread, in any order, also when one thread ends the transaction of another, keeps: one entry per record, entries only while held or waited on, holds equal to what transactions, threads and copied lists owe, exclusive excluding all else, no sleeper whose request is compatible, no freed entry in use; lock lists count as unbounded here, which is what the code does as long as one thread locks for each transaction (`LockCapacity.OneThreadEach`) |
| LockSafety.ExclusiveIsAlone | server/txn/lock_manager.c:158-208 | an exclusively held record has one hold: no second transaction, thread or copied list answers for it |
| LockSafety.SleepersWaitForSomeone | server/txn/lock_manager.c:210-244 | no lost wakeup: whoever sleeps, sleeps on a record somebody holds |
| LockSafety.ReleaseFinds | server/txn/txn_manager.c:127-217 | whenever a lock is given back, its entry exists and is held: nothing is released twice |
| LockSafety.NothingLeaks | server/txn/txn_manager.c:127-277 | when all threads are idle and all transactions have ended the lock table is empty; for runs that stay within the lock arrays, as they do with one thread locking for each transaction |
| LockOwners.RunsLeakNothing | server/txn/txn_manager.c:93-277 | over any run every hold stays accounted for, and once all is idle and ended no entry is left; for runs that stay within the lock arrays, as they do with one thread locking for each transaction, whoever ends it |
| LockOwners.SectionIsAtomic | server/txn/txn_manager.c:223-277 | with exclusive requests, each section is invisible, or takes one free record, or gives back one record of the same thread |
| LockOwners.RunsAreAtomic | server/txn/lock_manager.c:158-244 | any run of exclusive requests, with waiting, waking, collisions and ends of transactions, is a run of atomic acquisitions of free records and releases by the owner on a map from records to single owners |
| LockReplies.BeginExactly | server/txn/txn_manager.c:93-125 | `txn_begin` is refused if and only if all 128 slots are active; otherwise the caller gets an id no slot carries, one free slot becomes that transaction, with no locks, and no other slot changes |
| LockReplies.IdsOnlyGrow | server/txn/txn_manager.c:93-125 | along every run an id once given out is never given out again |
| LockReplies.CheckExactly | server/txn/txn_manager.c:223-251 | the first section of `txn_lock` answers success at once if and only if the transaction already has the record, refuses if and only if the transaction is not active or has 64 others, and changes nothing else |
| LockReplies.EnterExactly | server/txn/lock_manager.c:158-208 | an attempt at a record, first or after waking, takes it if and only if no hold is incompatible with it, and otherwise sleeps; in the first case there is just this hold more, in the second the holds are as before |
| LockReplies.RegisterExactly | server/txn/txn_manager.c:253-277 | `txn_lock` answers success in the end if and only if the transaction is still active, and then has just this record more; otherwise nothing is registered and the hold is given back |
| LockReplies.FinishExactly | server/txn/txn_manager.c:127-217 | commit and abort are refused if and only if the transaction is not active; otherwise its slot and no other is given up, and the records to give back are just those it had |
| LockReplies.GiveBackExactly | server/txn/lock_manager.c:210-244 | giving back a record takes one hold of it away, wakes all who sleep on it with the requests they have, and leaves all other holds and threads |
| LockReplies.ReleaseExactly | server/txn/txn_manager.c:127-277 | commit and abort answer success when every record of the copied list has been given back and not before; an orphaned lock is given back before `txn_lock` answers with a refusal |
| LockReplies.HeldToTheEnd | server/txn/txn_manager.c:127-277 | strict two-phase locking: from the moment `txn_lock` has answered success until the transaction is finished, the record stays registered with it and held, whatever all other threads do |
| LockCapacity.FitsExactly | server/txn/txn_manager.c:244-268 | a run writes within every transaction's array of 64 locks throughout if and only if each registration finds fewer than 64 locks there: the test that is not repeated after the wait |
| LockCapacity.OneThreadEach | server/txn/txn_manager.c:223-277 | in every run in which one thread locks for each transaction, and any thread may end it, no lock array overflows, and every hold is accounted for |
| LockCapacity.SharedOverflows | server/txn/txn_manager.c:244-268 | a concrete run in which two threads lock for one transaction, both see 63 locks, and the 65th is registered |
| BookingSafety.RunsNeverDoubleBook | server/core/booking_engine.c:121-201 | over any interleaving of any number of book, cancel and create requests, no seat ever has rows of two confirmed bookings |
| BookingSafety.MoveInv | server/core/booking_engine.c:74-320 | each step of each thread keeps the invariant behind that: who claims what while seats are being marked or freed, tied to who holds which lock |
| BookingRefinement.MoveRefines | server/core/booking_engine.c:203-309 | each step is invisible or exactly one atomic step on the books: a booking happens wholly at its commit, a cancellation wholly when it marks its booking, a refused request not at all |
| BookingRefinement.RunsRefine | server/core/booking_engine.c:103-320 | a run in which every cancellation finds all rows of its booking has the outcome of its atomic steps done one after another, each allowed when it was done |
| BookingRefinement.QuietSeats | server/core/booking_engine.c:172-201 | at rest a seat is booked if and only if exactly one confirmed booking claims it, and `booked_by` is the user of that booking; otherwise it is available and belongs to nobody |
| BookingRefinement.BookRefusalRight | server/core/booking_engine.c:130-151 | a booking refused after its checks is refused for a reason that holds of the books at that moment: a seat that is missing, of another event, or taken |
| BookingRefinement.CancelRefusalRight | server/core/booking_engine.c:240-259 | a cancellation of a booking that is not in flight is refused only if the booking is missing, of another user, or not confirmed |
| BookingAlone.AloneExactly | server/core/booking_engine.c:74-320 | a request that runs alone from rest always ends, and always in one and the same state, with all locks free again |
| BookingAlone.BookOkExactly | server/core/booking_engine.c:74-151 | a booking alone is answered Ok if and only if its event is there and active, and its seats are one to ten different ones, each there, of that event and available; otherwise the tables stay as they are and the answer names what is wrong |
| BookingAlone.BookedWhat | server/core/booking_engine.c:153-201 | a booking answered Ok has a new number, is confirmed, has one row for each of its seats, and its user stands on just these seats; everything else is as before |
| BookingAlone.CancelOkExactly | server/core/booking_engine.c:224-259 | a cancellation alone is answered Ok if and only if the booking is there, the user's own and confirmed; otherwise the tables stay as they are and the answer names what is wrong |
| BookingAlone.CancelledWhat | server/core/booking_engine.c:261-309 | a cancellation answered Ok frees just the seats its booking has rows for and marks just that booking |
| BookingAlone.CreatedWhat | server/core/event_mgr.c:48-115 | an event is created if and only if its grid has one to 26 rows of one to 100 seats; it is active and has one available seat for each place |
| BookingAnswers.AllOrNothing | server/core/booking_engine.c:74-320 | in every interleaving a request answered Ok has had exactly its one effect, for the user, event, seats or booking it named, and a request answered otherwise has had none |
| BookingAnswers.LookupExactly | server/core/booking_engine.c:90-102 | the event lookup lets a booking pass if and only if the event is there and active, and otherwise answers which of the two failed |
| BookingAnswers.OkSawEvent | server/core/booking_engine.c:90-201 | in every run a booking answered Ok has found its event there and active at the moment of its lookup |
| BookingAnswers.GoneIsRefused | server/core/booking_engine.c:90-102 | whatever else runs, a booking for a deleted event that has not looked it up yet is never answered Ok |
| BookingAnswers.EventsExactly | server/core/event_mgr.c:48-175 | only creating an event within bounds, switching one and deleting one change the events: a new one is active under the next number, a deleted one is gone, no other is touched, and switching and deleting change nothing else |
| BookingAnswers.SlotFromTo | server/core/booking_engine.c:103-320 | a request occupies a slot of the transaction manager from the step that begins its transaction to the step that commits or aborts it |
| BookingAnswers.SlotRefusedExactly | server/txn/txn_manager.c:93-125 | a request finds no slot if and only if 128 other requests have theirs |
| BookingRace.SeatsRightExactly | server/core/booking_engine.c:261-309 | for every run from the empty state that comes to rest, the seats are right (booked exactly by one confirmed booking each, or available) if and only if every cancellation's scan found as many rows as the booking counts seats: the check that is missing after the scan |
| BookingRace.RaceGoesWrong | server/core/booking_engine.c:164-309 | a concrete run in which a cancellation overtakes the booking it names: both succeed, and the seat stays booked for nobody |
| BookingSeats.BalancedExactly | server/core/reports.c:53-76 | for every run from the empty state that comes to rest, the reported `booked_seats` equals the sum of `seat_count` over the confirmed bookings, for all events, if and only if every cancellation found all rows of its booking |
| BookingSeats.EventReport | server/core/reports.c:53-76 | refused exactly for an event that is not there; otherwise the scan into a buffer of 2600 rows and the counting loop give the number the balance speaks of |
| BookingSeats.ReportCounts | server/core/event_mgr.c:60-108 | no event has more seats than the report's buffer has rows, so the report counts every booked seat of the event |
| BookingSeats.ExchangeSort | server/core/booking_engine.c:111-119 | the exchange loops leave the seat ids in ascending order, the same ids as before |
| BookingProgress.WaitsUpward | server/core/booking_engine.c:267-287 | a thread holding a seat waits only for a larger one, a thread holding a booking row waits only for seats |
| BookingProgress.NoDeadlock | server/core/booking_engine.c:109-128 | while some request is unfinished, some thread can step |
| BookingProgress.RunsAreShort | server/core/booking_engine.c:74-320 | under every schedule the requests at hand take at most a fixed number of steps: none runs forever |
| BookingProgress.StuckIsFinished | server/core/booking_engine.c:74-320 | a state in which nobody can step has answered every request |
| TableModel.FindMeansOneSlot | server/storage/table.c:379-417 | a lookup succeeds if and only if some live slot on all pages carries the id; there is never more than one, and its record is the one returned |
| TableModel.InsertKeeps | server/storage/table.c:271-367 | the id is new; afterwards index and pages agree, and the table has just the new row more, if and only if the record handed in is not flagged deleted, which the code does not check |
| TableModel.UpdateKeeps | server/storage/table.c:429-485 | an update of an absent id changes nothing; of a present one it leaves index and pages in agreement, and replaces just that row, if and only if the new image keeps the id and is not flagged deleted, which the code does not check |
| TableModel.ForeignImage | server/storage/table.c:429-485 | for every table, a concrete row and update after which the lookup of id 1 returns a record that carries id 2, and id 2 is not found |
| TableModel.DeleteKeeps | server/storage/table.c:498-552 | a delete removes its row and no other, and index and pages still agree |
| TableModel.KeyWritten | server/storage/table.c:275-278 | the id written into a record is read back from it, and every byte outside the four of the key field is the caller's, the deletion flag among them |
| TableModel.InsertedFound | server/storage/table.c:271-367 | after an insert of a live row the new id finds the caller's record, byte for byte outside the key field; a record flagged deleted is not found; every other id finds what it found before |
| TableModel.MarkKeepsKey | server/storage/table.c:69-77 | marking a record deleted sets its flag and leaves every other byte, the id among them |
| TableModel.LaidOut | common/types.h:135-240 | record sizes and the places of key and deletion flag are those of the packed structures, field by field |
| TableFile.ReplaceRow | server/storage/table.c:440-485 | the page holds the new image in that slot, the log ends with the record of the change, every other slot and every other file is as before; a slot flagged deleted is refused with nothing logged |
| TableFile.StoreRow | server/storage/table.c:284-350 | the row is in the next free slot of the last page, or the first of a new page, the log ends with its record, no other row changes |
| TableFile.LogChange | server/storage/table.c:459-478 | the record of an update or a delete is in the log at a moment when the page, pinned, still holds the old rows |
| TableFile.LogInsert | server/storage/table.c:305-312 | the record of an insert is in the log at a moment when the page, with room for the row, does not hold it yet |
| TableFile.OtherTableStays | server/storage/table.c:661-708 | what one table does through the shared pool leaves the rows of every other table as they were |
| Table.Table.constructor | server/storage/table.c:91-137 | a new table is valid and empty |
| Table.Table.Insert | server/storage/table.c:271-367 | on pool, pages, index and log together: the id is the next one and was in use by nobody; a live record is found under it, byte for byte the caller's outside the key field, and the last log record carries it so; otherwise the operation described by `StepKeeps`, other files untouched, nothing left pinned |
| Table.Table.FindById | server/storage/table.c:379-417 | through index, pool and page: the live record with that id, or nothing |
| Table.Table.Update | server/storage/table.c:429-485 | on pool, pages and log together: the operation described by `StepKeeps`; true exactly when the row was there |
| Table.Table.Delete | server/storage/table.c:498-552 | on pool, pages, index and log together: the operation described by `StepKeeps`; true exactly when the row was there |
| Table.Table.Scan | server/storage/table.c:566-604 | in a consistent table the results are rows of the table that the filter accepts, each once, and all of them if there is room; in any case the first `max` live slots the filter accepts |
| Table.Table.Count | server/storage/table.c:611-637 | in a consistent table, the number of its rows |
| Table.OpenTable | server/storage/table.c:142-225 | refused exactly when some junction row has id 0 or the largest id on file is the last there is; a consistent table only when its ids are used up; otherwise the next id follows the largest on file, and a table that was consistent is the same table again |
| TableScan.NeverLegacy | server/storage/table.c:186-225 | a consistent table is never taken for a legacy file, and its largest id is the one before the next |
| TableHistory.StepKeeps | server/storage/table.c:271-552 | an operation leaves pages, index and log in agreement if and only if its record keeps its identity and is live; then it is that operation on a plain map |
| TableHistory.RunDescribed | server/storage/table.c:305-546 | along every run of such operations the table is a plain map, and replaying the log from nothing gives exactly that map after every operation |
| TableHistory.OneRecordAhead | server/storage/table.c:305-546 | at the moment `LogChange` or `LogInsert` leaves behind, the log is at most one record ahead of the pages: without that record it replays to the rows still on them, with it to the rows to come |
| TableHistory.NeverFarAhead | server/storage/table.c:305-546 | at every such moment of a run, all but at most the last record of the log replay to the rows on the pages |
| TableHistory.GoneForGood | server/storage/table.c:271-552 | an id once given out and no longer in the table never comes back |
| TableHistory.RecoveredRows | server/storage/wal.c:379-462 | the log of any run, cut at any byte, recovered and replayed, gives the rows the table had at some moment of the run |
| TableHistory.StepLogs | server/storage/table.c:305-546 | an operation that finds its row, and every insert, appends one record with the next number: after an insert the caller's bytes with the new id, before an update or a delete the row that was there, zeros where there is no image; an operation that finds nothing appends nothing |
| TableHistory.RecoveredImages | server/storage/wal.c:379-462 | whatever recovery hands out of a table after a cut at any byte has images of the row's size, all zeros before an insert and after a delete |
| TableHistory.UndoneRows | server/storage/wal.c:260-297 | the images before are enough to go back: taking the records of a run back one by one gives the rows of every earlier moment |
| TableHistory.ScanFinds | server/storage/table.c:566-604 | a full scan returns a record if and only if it is a row of the table and the filter accepts it |
| TableHistory.ScanCounts | server/storage/table.c:566-604 | a full scan returns each such row once |
| TableHistory.CountCounts | server/storage/table.c:611-637 | the live slots are as many as the rows found by id |
| TableHistory.MaxIsLast | server/storage/table.c:186-221 | the largest id on the pages, deleted rows included, is the id given out last |
| Wal.HeaderRoundTrip | server/storage/wal.c:34-125 | every header that is written reads back field by field, whatever follows it |
| Wal.RecordAt | server/storage/wal.c:34-125 | each record's bytes lie where the lengths of the earlier ones put them |
| Wal.Wal.Append | server/storage/wal.c:34-125 | the log grows by one record, with the next number, the fields and images given, and zeros for an image that is not; what is flushed does not change |
| Wal.Wal.Open | server/storage/wal.c:173-233 | a complete log is continued at the next number; of a cut log every record whose header is complete counts |
| Wal.Recover | server/storage/wal.c:379-462 | of a log cut at any byte exactly the longest prefix of complete records is handed out, in order, with the images appended |
| Wal.RecoveredTells | server/storage/wal.c:64-125 | what recovery of a cut log hands out for the changes of a session: number, operation, row and the images given, zeros for those not given |
| Wal.RecoverAndOpen | server/storage/wal.c:173-462 | after a cut, numbering goes on right behind the last record replayed if and only if fewer bytes than a header follow it; otherwise exactly one number is skipped |
| Wal.TornRecordSkips | server/storage/wal.c:195-225 | a concrete cut log of which nothing is replayed, yet whose next record is number 2 |
| Wal.Session | server/storage/wal.c:34-225 | opening, appending any changes, flushing and closing keeps numbers consecutive from 1 |
| Wal.Sessions | server/storage/wal.c:34-225 | any number of sessions, each opening the file the last one closed, leaves the log, numbers and bytes, of one long session |
| ThreadPool.RunInv | server/network/thread_pool.c:71-243 | over any run no queued task is lost, duplicated or reordered, the queue never exceeds its capacity, and nobody sleeps who could go on without somebody being on the way to wake him |
| ThreadPool.RunHonest | server/network/thread_pool.c:202-243 | over any run each call keeps the task it was made with, the tasks queued are, with their multiplicities, those of the calls answered with success, and no call is refused before shutdown |
| ThreadPool.SectionReplies | server/network/thread_pool.c:202-243 | a submission is refused if and only if the pool is shut down, sleeps if and only if there is no room, and otherwise its own task is queued last |
| ThreadPool.RoundDoes | server/network/thread_pool.c:71-111 | a worker sleeps if and only if there is nothing to do yet, leaves if and only if there is nothing to do any more, and otherwise runs the task queued longest ago |
| ThreadPool.RunBounded | server/network/thread_pool.c:117-165 | a pool keeps the workers it was created with and never queues more tasks than it was created for |
| ThreadPool.ShutdownIsFinal | server/network/thread_pool.c:202-243 | after shutdown no task is accepted |
| ThreadPool.DrainedAtTheEnd | server/network/thread_pool.c:167-200 | when all workers are joined, the tasks that have run are exactly those whose submission was answered with success, each once for each such call, and they started in the order they were accepted |
| ThreadPool.QueuedWillRun | server/network/thread_pool.c:71-111 | while tasks are queued some worker is awake |
| ThreadPool.BlockedForAReason | server/network/thread_pool.c:202-243 | a submitter sleeps only while the queue is full or another is on its way to the free place |
| ThreadPool.WorkersWindDown | server/network/thread_pool.c:167-200 | after shutdown every step of a worker brings it nearer to its end |
| ThreadPool.SomeWorkerSteps | server/network/thread_pool.c:167-200 | after shutdown, until all workers are gone, one of them can step: the joins end |
| ThreadPool.TaskQueue.Enqueue | server/network/thread_pool.c:219-236 | the linked queue has the task at its end, the nodes before it are the same |
| ThreadPool.TaskQueue.Dequeue | server/network/thread_pool.c:91-97 | the linked queue gives its first task and keeps the rest in order |

## Left out

- BookingRefinement.RunsRefine: speaks of runs whose cancellations find all rows of their bookings; for the others `BookingRace.SeatsRightExactly` shows that the outcome is always wrong.
- BookingRefinement.CancelRefusalRight: does not speak of a booking in flight, which a cancellation by another user is told about before it is committed.
- LockSafety.MoveInv: threads, transactions and entries are values in a step system, not objects on the heap; bucket lists are sequences of addresses, and a transaction's locks a list without a bound. What the code does once an array has overflowed is not modelled; `LockCapacity` says when that cannot happen.
- LockOwners.RunsAreAtomic: requests are exclusive, as all of the booking engine's are, and each transaction is used and ended by its own thread; `txn_lock` ignores the mode of a record already held (server/txn/txn_manager.c:235-242).
- LockOwners.RunsLeakNothing: like `LockSafety.MoveInv`, for runs that stay within the lock arrays; `LockCapacity.OneThreadEach` is the theorem without that proviso.
- LockSafety.NothingLeaks: the same proviso; and `next_txn_id` does not wrap around after 2^32 transactions.
- BookingSafety.MoveInv: table operations of the booking threads are atomic steps on maps, as the storage mutex makes them, and every arrival of a request gets a thread of its own; they are not composed with the `Table` class.
- BTree.InsertRecursive: shifts keys first and then values or children, where the C loop shifts both together.
- BTreeFile.Open: a file that passes the header checks is one that `btree_save` wrote; damaged index files and the branch for a saved index without a root are not modelled, and padding bytes of a record pointer are written as zeros.
- BTreeIndex.IndexTree.RangeScan: keys are 32-bit values, as the callers' ids are; the result buffer does not overlap the tree.
- BufferPool.BufferPool.Fetch: disk reads and writes of an open file do not fail; a failed write-back during eviction, which the code ignores (server/storage/buffer_pool.c:256-260), is not modelled.
- PoolRuns.Execute: clients keep to the discipline stated in server/storage/buffer_pool.h:15-19.
- Table.Table.Insert: the number of pages of the data file is a field of the table, and a page or an id is left to give out; a slot that turns out full after the check cannot happen under the storage mutex.
- Table.Table.Scan: results are a sequence, not records copied into the caller's memory.
- Wal.Wal.Open: logs are complete or cut short; other damage and appending behind a torn record are not modelled. Timestamps are not part of the model.
- Undo in `txn_abort` and recovery at startup: the repository says it has neither (README.md:286-292).
- `lock_mgr_release_all`, shared-to-exclusive upgrade and `page_delete_record`: nothing in the server calls the first and the third, and `txn_lock` does not upgrade.
- Failures of allocation, disk and log: every property is about runs without them, except where a log is cut.
- Prices, amounts and occupancy in floating point: only seats are counted.
- Sockets, signals, client, logger, shared-memory counters, parser, authentication and text formatting.
- Fairness of condition variables and of the scheduler: steps are shown to be enabled and runs to be bounded, not who goes first.
