# A verified model of libxseg

libxseg is a shared-memory segment with hand-written data structures in it and a protocol that
routes requests between the peers attached to it. This project models the parts that carry the
weight, in the form the C code has: structures that are updated in place are classes over
arrays, loops are loops with invariants, and what runs concurrently is a state machine over
its atomic steps and lock regions.

| files | what they model |
|---|---|
| `Words`, `Seqs`, `Names` | 64-bit words, powers of two, sequences, the names of cache entries |
| `Probe`, `HashTable`, `XHash` | the open-addressing hash table: number theory of its probing, tables as values, the table in place |
| `ReqData` | the request-data table of a peer, which resizes and retries |
| `XQ`, `XBinHeap`, `XPool` | the ring queue, the indexed heap, the index pool |
| `XCacheTable`, `XCacheLru`, `XCacheRecency`, `XCache` | the cache: its hash tables, its two ways to find the least recently used entry, what that entry is, and the cache without the table of removed entries |
| `XCacheRm`, `XCacheRmCalls` | the cache with the table of removed entries, under any interleaving, and what its calls come to |
| `XHeapSizes`, `XHeap`, `XObj` | size classes, the allocator, the slab layer on it |
| `XWorkQ`, `XWorkQCalls` | the work queue drained under a try-lock, with any number of threads, and what its calls come to |
| `XSegState`, `XSegProtocol`, `XSegRuns`, `XSegWalk`, `XSegCalls` | the request protocol: its calls, its invariant, its runs, the walk of a submit, exactly when calls succeed and in which order requests come out |

Every file is a module of the same name. `dafny verify dfyconfig.toml` checks the whole project.

## What the proofs found

Some of what the code or its comments suggest holds only under a condition. Each condition below
is proved to be exact.

- `xhash` keeps a never-used slot, on which every search relies, exactly for size shifts from 2 on.
- Inserting a key that is present behind a deleted slot makes a duplicate; for all other keys an insertion is a rebinding.
- `xq_init_seq` leaves `0 .. count-1` in the queue exactly if count equals the size (or a stale slot happens to be 0). `__xq_resize` reverses the order.
- `xbinheap_getkey` accepts one handle that is no longer live, because it compares with `>` where `>=` is needed.
- In `xheap` a chunk that was requested with one of the 23 sizes just below either limit is refused, and lost, when it is popped for a size outside them, and the other way round.
- Removing an entry from the heap of access times takes out another one, unless it is the only one.
- `xobj_alloc_obj` threads one object fewer than it counts when the object size divides the chunk.
- `xseg_submit` puts the transit port on the path, where its own comment would rather have the submitting port. The path of a request is the stack of its submitters exactly as long as they agree for that request. They differ after it was received back, because `xseg_receive` does not reset the transit port.
- `xseg_get_request` puts a request back if the destination is invalid, but to the port that its record names, which for an object not used before is whatever its memory holds. It loses the request exactly if that is no port; otherwise the counters of both ports are wrong from then on, and one of them can wrap around.
- The loop of `xseg_submit` tests `!port->flags & CAN_ACCEPT`, which passes over ports whose flags are all clear and no others. So a request is handed to a port that cannot accept exactly if that is the first one with any flag set; and the loop runs forever exactly if it starts among ports without flags that lead only to each other, as on a cycle.
- The cache takes branches marked as bugs exactly if a hash table must be rebuilt, and there is no memory for it, after an entry was taken out for the sake of the insertion. An entry that was evicted but not stored, or taken out of the table of removed entries but not entered, then stays in neither table.
- With the table of removed entries in use, a put takes a branch marked as a bug exactly if it gives up the last reference to a node that was never inserted.

## Model

| member | source | states |
|---|---|---|
| `Probe.IterateFullCycle` | src/xtypes/xhash.c:297-298 | from any start the unperturbed step `5*i + 1 mod 2^k` reaches every slot in fewer than `2^k` steps |
| `Probe.FirstReturn` | src/xtypes/xhash.c:297-298 | and is back at its start first after exactly `2^k` steps |
| `Probe.PerturbRunsOut` | src/xtypes/xhash.c:298 | the perturbation is zero after 13 shifts of a 64-bit hash |
| `Probe.VisitsEverySlot` | src/xtypes/xhash.c:282-299 | for every table size and every 64-bit hash, every slot is probed within `13 + 2^k` probes, so every search that has a never-used slot to find ends |
| `HashTable.StopMeansAbsent` | src/xtypes/xhash.c:282-292 | a search that stops at a never-used slot has shown that the key is not in the table |
| `HashTable.FillSlot` | src/xtypes/xhash.c:436-448 | filling the first free slot of a key adds exactly its binding and keeps every other key findable |
| `HashTable.KillSlot` | src/xtypes/xhash.c:125-138 | marking a slot as deleted takes out exactly that binding and cuts no other key off its probe sequence |
| `HashTable.InsertMeaning` | src/xtypes/xhash.c:399-424 | an insertion yields a well-formed table with the key rebound if and only if the key was not present behind a deleted slot; otherwise it makes a duplicate |
| `HashTable.BehindDummyExample` | src/xtypes/xhash.c:399-424 | such a table exists: a concrete one that ends up with the key in two slots |
| `XHash.GrowCheckLeavesRoom` | src/xtypes/xhash.c:330-336 | the grow check leaves a never-used slot after every insertion it lets pass if and only if the size shift is at least 2 |
| `XHash.GrowCheckIff` | src/xtypes/xhash.c:302-336 | an insertion asks for a resize, and a resize doubles the table, exactly from two thirds on, deleted slots included |
| `XHash.ShrinkCheckIff` | src/xtypes/xhash.c:319-344 | a deletion asks for one exactly below a quarter and above the least size, and a shrink halves the table |
| `XHash.InsertStatusIff` | src/xtypes/xhash.c:467-477 | an insertion succeeds exactly below the limit and below two thirds, and says ENOSPC exactly at the limit |
| `XHash.XHash.constructor` | src/xtypes/xhash.c:202-238 | an initialised table represents the empty map |
| `XHash.XHash.SearchEnds` | src/xtypes/xhash.c:555-584 | every search meets a never-used slot within `13 + 2^k` probes |
| `XHash.XHash.FindSlot` | src/xtypes/xhash.c:555-584 | the probing loop ends at the first slot that holds the key or was never used |
| `XHash.XHash.Lookup` | src/xtypes/xhash.c:587-597 | a lookup answers exactly what the represented map binds, for all keys |
| `XHash.XHash.DeleteRaw` | src/xtypes/xhash.c:272-300 | a deletion removes exactly the key and says whether it was there |
| `XHash.XHash.InsertSlot` | src/xtypes/xhash.c:399-424 | the insertion loop ends at the first free slot of the key or at the key itself, whichever its probe sequence meets first |
| `XHash.XHash.Insert` | src/xtypes/xhash.c:467-477 | an insertion answers ENOSPC, ERESIZE or success by the counters, and changes nothing unless it succeeds; then it leaves a table in order, with exactly the key rebound, if and only if the key was not behind a deleted slot |
| `XHash.XHash.Delete` | src/xtypes/xhash.c:547-553 | a deletion answers ERESIZE exactly if the table is sparse and above its least size, and otherwise removes exactly the key |
| `XHash.XHash.Resize` | src/xtypes/xhash.c:498-528 | a rebuild to any size that has room represents the same map, with no deleted slots and the same count |
| `XHash.XHash.Iterate` | src/xtypes/xhash.c:605-627 | one step of the iteration returns an entry not returned before, or says that all were |
| `XHash.XHash.Entries` | src/xtypes/xhash.c:641-653 | an iteration over an unmodified table returns every key exactly once |
| `XHash.AbsentIsNotBehindDummy` | src/xtypes/xhash.c:399-424 | a key that is not in the table is never behind a deleted slot, so inserting absent keys is always right |
| `ReqData.GrowSettles` | src/xtypes/xhash.c:302-317 | after growing once the insertion cannot ask for another resize, and the table is dense enough not to shrink |
| `ReqData.ShrinkSettles` | src/xtypes/xhash.c:319-344 | after shrinking a dense table once the deletion cannot ask for another resize |
| `ReqData.SparseNeedsTwoShrinks` | src/xtypes/xhash.c:319-344 | without the density invariant one shrink is not enough: a concrete table that asks twice |
| `ReqData.ReqData.Set` | src/xseg.c:1868-1897 | setting request data succeeds exactly if no resize is due or there is memory for it, at the latest after one resize; the table is in order afterwards if and only if there was a resize or the request was not present behind a deleted slot, and then exactly that binding was made |
| `ReqData.ReqData.Get` | src/xseg.c:1899-1937 | taking request data out returns what was set and removes it exactly if no resize is due or there is memory for it, at the latest after one resize |
| `XQ.SlotsDiffer` | src/xtypes/xq.c:144-150 | consecutive counters, fewer than the queue has slots, use different slots even across the 64-bit wrap-around |
| `XQ.XQ.Empty` | src/xtypes/xq.c:36-43 | an empty queue, whose size is the largest power of two that the buffer holds |
| `XQ.XQ.Seq` | src/xtypes/xq.c:63-77 | the initialised sequence holds `1 .. count-1` and then one more slot, which is 0 only if the queue is full and otherwise whatever the buffer held |
| `XQ.InitSeqHoldsAll` | src/xtypes/xq.c:63-77 | it holds each of `0 .. count-1` once if and only if the queue is full or the stale slot happens to be 0 |
| `XQ.XQ.AppendHead` | src/xtypes/xq.c:174-182 | appends at the head, or answers that the queue is full, for every value of the wrapping counters |
| `XQ.XQ.PopHead` | src/xtypes/xq.c:224-231 | takes the head element off, or answers that the queue is empty |
| `XQ.XQ.PeekHead` | src/xtypes/xq.c:248-254 | returns the head element and leaves the queue alone |
| `XQ.XQ.AppendTail` | src/xtypes/xq.c:319-326 | appends at the tail, or answers that the queue is full |
| `XQ.XQ.PopTail` | src/xtypes/xq.c:366-372 | takes the tail element off, or answers that the queue is empty |
| `XQ.XQ.PeekTail` | src/xtypes/xq.c:271-277 | returns the tail element and leaves the queue alone |
| `XQ.XQ.HeadToTail` | src/xtypes/xq.c:383-415 | moves elements exactly if both queues allow it, and then equals that many single moves of pop head and append tail |
| `XQ.MoveManyIsBlock` | src/xtypes/xq.c:383-415 | that many single moves are one block move that keeps the order |
| `XQ.XQ.Resize` | src/xtypes/xq.c:438-457 | resizing into an empty queue with room moves all elements, in exactly the reverse order |
| `Seqs.ReversedKeepsElements` | src/xtypes/xq.c:438-457 | that reversal conserves the multiset of elements |
| `XQ.XQ.Check` | src/xtypes/xq.c:417-427 | finds an element exactly if the queue holds it |
| `XBinHeap.XBinHeap.HeapifyUp` | src/xtypes/xbinheap.c:50-72 | restores heap order when one node may be above its parent, and keeps the nodes and their handles |
| `XBinHeap.XBinHeap.HeapifyDown` | src/xtypes/xbinheap.c:74-115 | restores heap order when one node may be below its children, and keeps the nodes and their handles |
| `XBinHeap.RootIsFirst` | src/xtypes/xbinheap.c:139-146 | in a MIN heap the root key is the least, in a MAX heap the greatest |
| `XBinHeap.XBinHeap.Insert` | src/xtypes/xbinheap.c:117-131 | adds one (key, value) under a handle not in use, or answers that the heap is full |
| `XBinHeap.XBinHeap.Extract` | src/xtypes/xbinheap.c:148-158 | removes exactly one entry with the first key and returns its value |
| `XBinHeap.XBinHeap.IncreaseKey` | src/xtypes/xbinheap.c:160-176 | changes exactly the key of a live handle, for a key that is not smaller |
| `XBinHeap.XBinHeap.DecreaseKey` | src/xtypes/xbinheap.c:220-236 | changes exactly the key of a live handle, for a key that is not greater |
| `XBinHeap.XBinHeap.GetKey` | src/xtypes/xbinheap.c:178-185 | returns the key last set for every live handle; the bound check is one too weak, so one dead handle gets a stale key |
| `XBinHeap.XBinHeap.ExtractAll` | src/xtypes/xbinheap.c:148-158 | repeated extraction lists every value once, in key order |
| `XCacheLru.FirstIsLeast` | src/xtypes/xcache.c:404-430 | the first index of the abstract order has the smallest access time |
| `XCacheLru.ArrayLru.Lru` | src/xtypes/xcache.c:404-420 | the scan finds the least recently accessed entry, and nothing exactly if there is none |
| `XCacheLru.ArrayLru.Touch` | src/xtypes/xcache.c:167-182 | an access makes the node the latest one and keeps the order of the others |
| `XCacheLru.ArrayLru.Run` | src/xtypes/xcache.c:477-493 | every run of lookups and inserts evicts what the abstract least-recently-used order evicts |
| `XCacheLru.LeastIsFirst` | src/xtypes/xcache.c:421-428 | the entry that the heap extracts is the first of the abstract order |
| `XCacheLru.HeapLru.Touch` | src/xtypes/xcache.c:167-193 | an access keeps every handle the name of its own entry in the heap, and makes the node the latest one |
| `XCacheLru.HeapLru.Evict` | src/xtypes/xcache.c:421-428 | the heap gives up the least recently accessed entry and its handle is cleared |
| `XCacheLru.HeapLru.Remove` | src/xtypes/xcache.c:227-240 | removing an entry takes the least recently accessed one of the others out of the heap; it takes out the entry itself if and only if there is no other |
| `XCacheLru.HeapLru.Run` | src/xtypes/xcache.c:477-493 | every run of lookups and inserts evicts what the abstract order evicts |
| `XCacheLru.Agreement` | src/xtypes/xcache.c:404-430 | the array scan and the heap evict the same entries over every run |
| `XCacheRecency.EvictsLeastRecent` | src/xtypes/xcache.c:404-430 | in terms of the history alone: whenever the table is full, what is evicted is the entry present whose last access is the earliest, and otherwise nothing |
| `XCacheRecency.PresentAfter` | src/xtypes/xcache.c:477-493 | an operation adds the entry it accesses and takes away only the one it evicts |
| `XCacheTable.CacheSizeIsNearest` | src/xtypes/xcache.c:713-725 | the cache size is a power of two, none is nearer to the size requested, and of two that are as near it is the larger |
| `XCacheTable.RoomWithoutDummies` | src/xtypes/xcache.c:732-747 | a table below its limit without deleted slots takes one more entry without growing |
| `XCacheTable.HashShiftIsLeast` | src/xtypes/xcache.c:732-747 | the table has eight times the least power of two above three halves of the cache size |
| `XCacheTable.CacheTable.Insert` | src/xtypes/xcache.c:56-84 | inserting an absent name fails exactly at the limit, or when a rebuild is needed and there is no memory for it; the insertion after a rebuild never fails, so its BUG branch is not reached |
| `XCacheTable.CacheTable.Remove` | src/xtypes/xcache.c:86-99 | removing never asks for a resize, so its BUG branch is not reached |
| `XCache.XCache.constructor` | src/xtypes/xcache.c:701-816 | a new cache is empty and all its nodes are free |
| `XCache.XCache.AllocInit` | src/xtypes/xcache.c:670-688 | takes the first free node, which nobody held, under the name that was asked for and with one reference; answers that none is free exactly if that is so |
| `XCache.XCache.Lookup` | src/xtypes/xcache.c:659-668 | answers the entry of the name exactly if there is one, makes it the last of the access order, keeps the others in theirs, and adds one reference and one holder; nothing else changes |
| `XCache.XCache.Insert` | src/xtypes/xcache.c:522-602 | answers the entry of that name if there is one; otherwise enters the node, be it new or removed before, evicting if the table is full; fails exactly if the table must be rebuilt and there is no memory, and has evicted even then; never more entries than the size, and every eviction finds an entry |
| `XCache.ReplacedMeans` | src/xtypes/xcache.c:570-601 | an insertion into a full table replaces the name accessed longest ago, keeps what every caller holds, and frees the old node exactly if nobody holds it |
| `XCache.WastedMeans` | src/xtypes/xcache.c:570-590 | an insertion that fails after the eviction has cost the table the name accessed longest ago, and nothing else |
| `XCache.HitSurvives` | src/xtypes/xcache.c:570-590 | over two calls: after a lookup that found it, an entry is not what an insertion into a full table of at least two entries takes out |
| `XCache.XCache.Put` | src/xtypes/xcache.c:333-378 | gives up one reference; the node goes to the free queue exactly if it was the last and the node is not in the table |
| `XCache.FreeRoom` | src/xtypes/xcache.c:106-111 | as long as a node is in use the free queue has room for it, so the BUG branch of freeing is not reached |
| `XCache.XCache.Invalidate` | src/xtypes/xcache.c:845-882 | the name is gone afterwards, and its node is free exactly if nobody holds it |
| `XCache.XCache.FreeNew` | src/xtypes/xcache.c:912-919 | gives a node that was never inserted back to the free queue |
| `XCacheRm.StepInv` | src/xtypes/xcache.c:333-648 | every lock region and atomic step of every thread keeps the invariant of references, names, places and limits |
| `XCacheRm.RefCounts` | src/xtypes/xcache.c:333-378 | in every interleaving the reference count is the outside holders, one for the table (or left over from it, for a stray), and one for each put an eviction owes; a node without references is in neither table |
| `XCacheRm.TablesKeepTheirLimits` | src/xtypes/xcache.c:432-475 | in every interleaving no name is in both tables, neither table exceeds the size, and branches reported as bugs have been reached if and only if an insertion found no memory to rebuild a table after something was taken out for it |
| `XCacheRm.BugIff` | src/xtypes/xcache.c:432-590 | of all steps exactly these take such a branch: storing an evicted entry without memory, and entering a node without memory after an eviction or after it was taken out of the table of removed entries |
| `XCacheRm.StrayIff` | src/xtypes/xcache.c:463-472 | those steps, and no others, leave a node in neither table; it stays there until a holder inserts it again |
| `XCacheRm.StrayIs` | src/xtypes/xcache.c:463-472 | such a node has one reference more than holders and puts to come, so no put ever frees it |
| `XCacheRm.RoomInRm` | src/xtypes/xcache.c:463-472 | when an entry is evicted the table of removed entries has room for it |
| `XCacheRm.FreedOncePerLifetime` | src/xtypes/xcache.c:106-126 | takes of a node from the free queue and returns to it alternate, so no node is freed twice |
| `XCacheRm.LastPut` | src/xtypes/xcache.c:333-361 | a put that takes the count to zero finds the node in the table of removed entries under its own name |
| `XCacheRm.InsertGoesOn` | src/xtypes/xcache.c:570-590 | an insertion under way always has a next step: an entry to evict when it needs one, and room when it inserts |
| `XCacheRm.NameStays` | src/xtypes/xcache.c:522-602 | whatever other threads do, the node an insertion or lookup works for keeps the name that was asked for |
| `XCacheRm.ReturnsEntry` | src/xtypes/xcache.c:592-601 | what insert and lookup return is in the table under its name, with one more reference for the caller |
| `XCacheRm.LastPutOfNewNode` | src/xtypes/xcache.c:906-919 | a put by a holder takes a bug branch if and only if it gives up the last reference to a node that was never inserted, for which there is free_new |
| `XCacheRmCalls.BooksChange` | src/xtypes/xcache.c:333-648 | every step of every thread changes the tables, the free queue, what callers hold and the puts that are owed exactly as stated, and no more |
| `XCacheRmCalls.AllocMeans` | src/xtypes/xcache.c:670-688 | an allocation hands out the first free node under the name that was asked for, to its caller alone |
| `XCacheRmCalls.InsertionMeans` | src/xtypes/xcache.c:522-602 | over a whole insertion, with any steps of others between: the name is in the table, bound to the node returned, which has one more holder; a name that was there changes nothing, and otherwise one other name is gone exactly if the table was full |
| `XCacheRmCalls.LookupMeans` | src/xtypes/xcache.c:659-668 | a lookup finds the entry exactly if the name is in the table, and answers NoEntry without any change otherwise |
| `XCacheRmCalls.GivesUpIff` | src/xtypes/xcache.c:570-601 | an insertion under way returns NoEntry exactly where a table finds no memory |
| `XCacheRmCalls.InsertionEnds` | src/xtypes/xcache.c:522-602 | it ends after at most five further steps of its own, and steps of others do not prolong it |
| `XHeapSizes.StableIff` | src/xtypes/xheap.c:39-51 | a freed chunk asked for again has exactly its size if and only if the request is not one of the 23 below each of the two limits |
| `XHeapSizes.SameList` | src/xtypes/xheap.c:59-80 | a freed chunk returns to the list it would be taken from, for every request |
| `XHeapSizes.SameClassIff` | src/xtypes/xheap.c:136-149 | two requests of one list get chunks of one size exactly if both or neither are in those windows |
| `XHeapSizes.WindowClash` | src/xtypes/xheap.c:136-149 | the mismatch happens: a request just below the limit and the limit itself share a list and differ in size |
| `XHeapSizes.IndexMonotone` | src/xtypes/xheap.c:59-80 | larger requests have list numbers at least as large |
| `XHeapSizes.Slack` | src/xtypes/xheap.c:26-36 | less than one eighth is wasted on medium and large requests, less than one alignment unit on small ones |
| `XHeapSizes.ListHeadsFit` | src/xtypes/xheap.c:208-233 | the array of list heads fits into the region |
| `XHeap.XHeap.constructor` | src/xtypes/xheap.c:193-242 | the first header lies above the list heads, at the lowest place that aligns payloads; initialisation fails exactly if less than a page is left |
| `XHeap.XHeap.Allocate` | src/xtypes/xheap.c:88-151 | an aligned payload that is large enough and nobody else has; exactly when the answer is NULL; a popped chunk is refused and lost exactly if one of the two requests is in a window; other payloads are untouched |
| `XHeap.XHeap.Carve` | src/xtypes/xheap.c:115-130 | a new chunk is carved exactly if it fits, with its header before an aligned payload |
| `XHeap.XHeap.Free` | src/xtypes/xheap.c:153-191 | the chunk becomes the head of its own list and no other payload changes |
| `XHeap.XHeap.Write` | src/xtypes/xheap.c:171-191 | whatever callers write to their payloads, the allocator stays in order |
| `XHeap.ChunksAreDisjoint` | src/xtypes/xheap.c:115-130 | any two chunks, headers included, occupy different bytes of the region, and none reaches into the list heads |
| `XHeap.ChainIsTheList` | src/xtypes/xheap.c:153-169 | following a free list through the payloads meets its chunks in order and then ends |
| `XObj.CountIff` | src/xtypes/xobj.c:79-120 | the counters credit a chunk with one object more than the loop threads exactly if the object size divides the chunk size |
| `XObj.XObj.FreeCountIff` | src/xtypes/xobj.c:118-120 | the free counter is exact if and only if no tracked chunk is a whole number of objects |
| `XObj.ObjectsApart` | src/xtypes/xobj.c:79-86 | any two objects are disjoint |
| `XObj.XObj.AllocObj` | src/xtypes/xobj.c:61-129 | the new chunk is cut into objects that go to the front of the free list; it fails exactly without memory, without a table entry, or with a chunk no larger than an object |
| `XObj.XObj.Thread` | src/xtypes/xobj.c:77-86 | the loop threads exactly the objects that leave a byte to spare |
| `XObj.XObj.GetObj` | src/xtypes/xobj.c:147-180 | hands out the first free object, which nobody holds, allocating first if it may and must |
| `XObj.XObj.PutObj` | src/xtypes/xobj.c:131-145 | the object is the first free one again |
| `XObj.XObj.WriteHeld` | src/xtypes/xobj.c:131-180 | whatever holders write to their objects, the link field included, the slab stays in order |
| `XObj.XObj.IsFree` | src/xtypes/xobj.c:256-273 | the walk along the list finds exactly the free objects |
| `XObj.XObj.Check` | src/xtypes/xobj.c:223-245 | the check passes exactly the objects of tracked chunks, as the counters count them |
| `XObj.XObj.HeldPassesCheck` | src/xtypes/xobj.c:223-273 | an object handed out passes the check and is not free until it is put back |
| `XPool.XPool.constructor` | src/xtypes/xpool.c:26-55 | a cleared pool has every index in the free chain and none in the ring |
| `XPool.XPool.Add` | src/xtypes/xpool.c:57-96 | a free index, if there is one, becomes the last that a walk from the cursor meets |
| `XPool.XPool.Remove` | src/xtypes/xpool.c:192-219 | takes exactly the given index out of the ring, if it is in use, and makes it the first free one |
| `XPool.XPool.PeekAndForward` | src/xtypes/xpool.c:274-286 | returns what is at the cursor and moves it on |
| `XPool.XPool.PeekIdx` | src/xtypes/xpool.c:252-262 | reads any index in use and refuses the others |
| `XPool.InUse` | src/xtypes/xpool.c:20-24 | the check of an index tells exactly whether it is in the ring |
| `XPool.Distinct` | src/xtypes/xpool.c:57-96 | ring and free chain have no index in common and none twice |
| `XPool.XPool.Walk` | src/xtypes/xpool.c:274-286 | as many steps as there are indices in use meet each once and bring the cursor back |
| `XWorkQ.NoStrandedWork` | src/xtypes/xworkq.c:45-122 | for any number of threads, and jobs that enqueue jobs, once all calls have returned the queue is empty and every appended job ran exactly as often as it was appended; in order, if the queue never grew |
| `XWorkQ.OneJobAtATime` | src/xtypes/xworkq.c:95-119 | no two threads are running jobs at the same time |
| `XWorkQ.CallsEnd` | src/xtypes/xworkq.c:95-122 | under every schedule the calls in progress end within a bound computed from the state |
| `XWorkQ.SomeoneCanStep` | src/include/xseg/xlock.h:146-226 | while a call is in progress some thread can take a step |
| `XWorkQCalls.AppendsIff` | src/xtypes/xworkq.c:45-81 | an enqueue fails exactly if the queue is full and there is no memory; the job is popped after all others, whose order is kept, or turned round if the queue grows, which it does exactly if it was full |
| `XWorkQCalls.EveryJobRuns` | src/xtypes/xworkq.c:45-122 | once all calls have returned, every job ever passed to an enqueue has run, exactly as often as it was passed, but for those whose enqueue met a full queue without memory |
| `XWorkQCalls.SignalRunsAll` | src/xtypes/xworkq.c:95-122 | a signal that nobody interferes with runs all jobs in the queue, in the order of popping, and returns with both locks free |
| `XWorkQCalls.EnqueueRunsJob` | src/xtypes/xworkq.c:45-122 | an enqueue that nobody interferes with runs its job at once, after those that were waiting |
| `XSegRuns.StepInv` | src/xseg.c:1381-1850 | every call keeps the invariant of places, counters and paths |
| `XSegRuns.EveryRequestIsInOnePlace` | src/xseg.c:1381-1519 | over every run, with queues that grow or not, each request is in exactly one of pool, free, request and reply queues, or held, none vanishes, and none is lost if every get named a valid destination |
| `XSegRuns.CountersAreRight` | src/xseg.c:1381-1519 | over every run the counter of a port is, modulo 2^64, the number of its requests outside the pool and of the decrements to come, shifted by what gets for invalid destinations moved between ports; it is right if and only if that shift is zero (modulo 2^64), as it is when every get named a valid destination, and then never exceeds the limit |
| `XSegRuns.OnlyGetsShift` | src/xseg.c:1381-1519 | no call but a get shifts a request between the accounts of ports |
| `XSegRuns.StrayGetShifts` | src/xseg.c:1425-1447 | a get for an invalid destination that takes an object whose record names another port raises its own counter for nothing and gives that port a request, or a decrement, that was not counted |
| `XSegRuns.CounterWrapsExample` | src/xseg.c:1508-1517 | such runs exist: two gets of one port make the counter of another port, which did nothing, wrap around below zero |
| `XSegRuns.GetLosesIff` | src/xseg.c:1403-1447 | a request popped from the free queue by get is lost exactly if the destination is invalid, because it carries no source when it is put |
| `XSegRuns.PoolGetLosesIff` | src/xseg.c:1414-1447 | a request that get takes from the pool, whether or not the pool had to grow, is lost exactly if the destination is invalid and its record names no existing port; if it names one, the request goes to the free queue of that port, or back to the pool if that is full; the counters shift exactly then |
| `XSegProtocol.ReceiveNeverRetries` | src/xseg.c:1724-1731 | in every reachable state a popped reply has the receiving port on top of its path, so the branch that should never happen is not reached |
| `XSegRuns.PathsAreStacks` | src/xseg.c:1653-1834 | over every run a reply waits at the port on top of its path, and the path of a request is the stack of its unanswered submitters unless the request itself was submitted, since it was got, by another port than the one of transit |
| `XSegRuns.StackOverRun` | src/xseg.c:1653-1834 | from any such state on, a request whose own submits are made by its port of transit keeps that stack, whatever the calls do with other requests |
| `XSegRuns.SubmitKeepsStackIff` | src/xseg.c:1653-1658 | the path stays the stack of submitters exactly if the submitter is the port the request is in transit at |
| `XSegRuns.FirstSubmitIsFaithful` | src/xseg.c:1598-1688 | which holds for every request that was got or accepted and not received back |
| `XSegRuns.ResubmitGoesAstray` | src/xseg.c:1690-1734 | a request that came back and is submitted again puts the port that answered on the path, not the one that submits |
| `XSegRuns.FailedSubmitChangesNothing` | src/xseg.c:1679-1686 | a submit that fails leaves the whole segment as it was, the path included |
| `XSegRuns.RepliesUnwind` | src/xseg.c:1775-1834 | a response goes to the last unanswered submitter that can receive, and passes over exactly those above it that cannot |
| `XSegRuns.ReceivePopsTop` | src/xseg.c:1724-1734 | a receive takes exactly the receiving port off the top of the path |
| `XSegCalls.SubmitIff` | src/xseg.c:1598-1688 | a submit answers a port exactly if that is the first one with a flag set on the way from the port of transit to a valid destination, the path has a place left of its 32, and the request queue has room or can grow |
| `XSegCalls.ForwardIff` | src/xseg.c:1836-1850 | a forward answers a port exactly if the new destination is valid and a submit to it answers that port |
| `XSegCalls.RespondIff` | src/xseg.c:1775-1834 | a respond answers a port exactly if it is the last submitter that can receive, all those above it exist, and its reply queue has room or can grow |
| `XSegCalls.SubmitMeans` | src/xseg.c:1653-1688 | a submit that succeeds makes the request the last to come out of that queue, adds the port of transit to its path, and changes nothing else |
| `XSegCalls.RespondMeans` | src/xseg.c:1806-1834 | a respond that succeeds makes the request the last to come out of the reply queue of that port |
| `XSegCalls.AcceptMeans` | src/xseg.c:1736-1768 | an accept takes the request that is first in line, which is then in transit at the port, or changes nothing if there is none |
| `XSegCalls.ReceiveMeans` | src/xseg.c:1690-1734 | a receive takes the reply that is first in line, or changes nothing if there is none |
| `XSegCalls.LineStep` | src/xseg.c:1598-1850 | with every call the line of every queue moves only so: answers come from its front, what is appended goes to its end, and a growth turns it round |
| `XSegCalls.FirstInFirstOut` | src/xseg.c:1598-1850 | over every run in which a queue does not grow, what was answered and what is still in line is what was in line at first and what was appended since, in this order; for requests and for replies |
| `XSegCalls.GetNothing` | src/xseg.c:1403-1431 | a get for which there is no request, a local one with an empty free queue included, changes nothing |
| `XSegCalls.GetMeans` | src/xseg.c:1403-1461 | any other get with a valid destination hands out the request put last, with an empty path, addressed to the destination and in transit at the caller; the counter rises exactly if it is from the pool |
| `XSegCalls.PutMeans` | src/xseg.c:1463-1519 | a put succeeds for every request that is held, and gives it to the port it was got from, or to the pool exactly if the free queue of that port is full |
| `XSegCalls.PutThenGet` | src/xseg.c:1403-1519 | over two calls: what was put last is got first |
| `XSegWalk.EndsSoonOrNever` | src/xseg.c:1628-1645 | the search for a port that takes the request ends if and only if it ends within as many rounds as there are ports |
| `XSegWalk.LoopsForeverIff` | src/xseg.c:1628-1645 | it never ends if and only if it starts in a set of ports other than the destination that lead only to each other and have no flags |
| `XSegWalk.LoopExample` | src/xseg.c:1628-1645 | such segments exist: two ports that name each other |
| `XSegWalk.TakerIsFirst` | src/xseg.c:1628-1645 | it finds a port exactly if that is the first along the chain with a flag set |
| `XSegWalk.UnwillingTakerIff` | src/xseg.c:1645 | a submit hands the request to a port that cannot accept if and only if the first port along the chain with a flag set cannot |
| `XSegWalk.UnwillingTakerExample` | src/xseg.c:1645 | it happens: a port that can only receive is handed a request |
| `XSegWalk.FindTaker` | src/xseg.c:1628-1645 | the loop finds the first port along the chain that does not pass the request on, and answers that there is none exactly if there is none |
| `XSegWalk.PopDeaf` | src/xseg.c:1789-1804 | the retry loop of a response takes off exactly the ports on top of the path that cannot receive |

## Left out

- Sizes of queues and tables are limited to what a 64-bit address space can hold (2^60 elements, 2^59 slots); allocation itself is a parameter that succeeds or fails.
- Cache sizes are at most 2^30, since the 32-bit computations of `xcache_init` wrap around above.
- XCache: the hash table and the free queue are a map and a sequence here, with the outcomes that XCacheTable and XQ prove of them, and whether the table is due for a rebuild is left open; callers take turns.
- XCacheRm: the tables are maps; which entry is evicted, and when a table is due for a rebuild, is left open; the hooks of the peer may take references when a node is finalised, and do nothing else; explicit removal and invalidation, and an initialisation hook that fails, are not part of it.
- XCacheLru: the reset of the access clock after 2^64 accesses is excluded by a precondition on the clock.
- XHeap: the bounds of `int` in the list number, and in the class limits for alignment units above 20, and the check that a freed chunk carries the magic number, which only logs; requests whose class has no list read past the list heads and are excluded by a precondition, as are regions smaller than a page.
- XQ.Snap: is the largest power of two that is not larger than the size; the code shifts an `int` by a count that takes 64-bit words for granted.
- XObj: the chunk that the heap gives and whether the chunk table takes it are parameters; the chunk table is a map.
- XPool: pools of no nodes, for which clearing writes before the array.
- XWorkQ: memory is sequentially consistent (releasing a lock is a plain store in the code), and counting the queue without its lock is one atomic step; every enqueue that is not made by a running job is followed by a signal, and the work lock is used by nothing else.
- XSegProtocol: a call makes one shared change, so calls of different peers interleave as whole calls, except that returning a request to the pool and lowering the counter are two steps; time stamps, buffers, serials and the counters for statistics are not modelled.
- XSegRuns: a submit whose search for a port never ends (XSegWalk.LoopsForeverIff says when) never returns, and is not a step of a run.
- XSegProtocol.ReceiveNeverRetries: assumes that reply queues are written by `xseg_respond` only.
- `xseg_alloc_requests`, `xseg_free_requests` and `xseg_set_freequeue_size`: they do not keep the accounting of requests.
- `xhash_update` and the frequency counters of `xhash`: an update of an absent key does not end.
- `xcache_close`, and the keys kept in the index array of `xhash` when markers are not in the values.
- `xlist.c` is not compiled; `xwaitq.c` adds nothing to the work queue.
- Input and output, signalling between processes, plugins, memory mapping, logging, binding of ports and drivers, specification parsing, creation and joining of segments, the command line tool and the Python bindings: plumbing around the parts above.
