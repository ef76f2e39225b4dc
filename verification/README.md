# nginx 1.0.15 core: models and proofs

This project models the data structures and the lock protocol at the heart of the nginx 1.0.15 core and
proves what each of them is for.  Code that relinks records in place is a Dafny method over heap objects or
over the fields it reassigns; each such method is proved against a value (a tree shape, a sequence, a map)
about which the promises are then proved as lemmas.

| file | models |
|---|---|
| `RbShape.dfy`, `RbTree.dfy`, `RbOrder.dfy` | the red-black tree: shapes and link tables as values, the rotations and fixups on real nodes, and the tree as a stable sorted list over whole runs |
| `EventTimer.dfy` | event timers on that tree, with a wrapping millisecond counter and handlers that arm and disarm timers |
| `Shmtx.dfy` | the shared-memory mutex as interleaved single accesses of any number of processes |
| `Bits.dfy`, `SlabShape.dfy`, `SlabState.dfy`, `Slab.dfy` | the slab allocator: words read bit by bit, runs of pages and the three bitmap encodings, linked descriptors, allocation and release |
| `Queue.dfy` | the circular queue, its middle and its stable insertion sort |
| `Radix.dfy` | the 32-bit radix tree with its node free list |
| `Gmtime.dfy` | the calendar formulas of `ngx_gmtime` |
| `ConfToken.dfy` | the configuration tokenizer over its sliding buffer |
| `OutputChain.dfy` | the output chain and its recycled buffers over any filter that consumes in order |
| `Wrappers.dfy` | a value that may be missing |
| `PackedHash.dfy` | the read-only hash: the search for a size with 16-bit counters, the packing byte by byte, the lookup |
| `Wildcard.dfy` | wildcard host names: the reversal, the nested tables and the lookup from the last label |
| `FileCache.dfy` | the open-file cache: tree, queue, users and descriptors, with the file system's answers as parameters |
| `Inet.dfy` | IPv6 addresses as text: printer, parser and dotted quads |

How the heap is described.  A linked structure is compared with a ghost value: a node of the red-black tree
must store exactly what a table computed from a tree shape says (`Mirrors`), a queue or a slab list must be
linked as a sequence says (`Ring`), a radix node must stand at its bit string (`Wired`).  A method then
changes fields, and lemmas about the values say what that means.  In the red-black tree the parent of the
root and of the sentinel are never constrained (`Loose`), because the code leaves both stale.

Where the code and its own words differ.  The tokenizer compares the span since the last token start with
the buffer size, so blanks after a token and comments count towards a "too long parameter"
(`ConfToken.BlanksTooLong`, `ConfToken.CommentTooLong`).  At the end of a file in the middle of the very first
word of a directive the tokenizer reports a regular end of file, because it only looks at completed words
(`ConfToken.DoneExactly`, `ConfToken.PendingWordIsDone`).

Where the code falls short.  Some promises hold only under a condition, and the condition is proved exact.
Two IPv6 addresses with the tail 255.255.255.255 are printed but not read back
(`Inet.RoundTrip`).  Octets of a dotted quad are kept in 64 bits, so numbers from 2^64 on can pass for octets
(`Inet.QuadReads`).  A brace behind a dollar sign belongs to a word of a configuration file, unless the dollar
sign is the word's first character, when it starts a block (`ConfToken.BraceBehindDollar`).  The open-file cache keeps a closed descriptor when the number of an open file turns up on
a directory, and loses one when a file is replaced and put back between two system calls
(`FileCache.Cache.OpenCachedFile`; `FileCache.ReusedHappens` and `FileCache.RacedHappens` reach such states
in two requests).  The hash builder's counting pass, with its 16-bit counters, is right
exactly for bucket limits below 32768 bytes (`PackedHash.CountingExact`).  It tries every size that could do as
long as no name is gone from its list (`PackedHash.RoomyIsTried`); names that are gone push the start of the
search up (`PackedHash.GoneNamesCount`), and of a great table for many names only the last thousand sizes are
tried (`PackedHash.Init`).

## Model

| member | source | states |
|---|---|---|
| `RbTree.RbTree.constructor` | nginx_1015/src/core/ngx_rbtree.h:44-48 | an empty tree on a black sentinel is valid |
| `RbTree.RbTree.InsertBinary` | nginx_1015/src/core/ngx_rbtree.c:97-155 | both descents (by value, by signed difference) end at a nil where the new red leaf belongs: at the one position that splits the in-order sequence into keys not to the right of the new one and keys to its right |
| `RbTree.RbTree.LeftRotate` | nginx_1015/src/core/ngx_rbtree.c:327-354 | the field writes of a left rotation turn the link table of one shape into that of the rotated shape, whatever the parent of the root is |
| `RbTree.RbTree.RightRotate` | nginx_1015/src/core/ngx_rbtree.c:357-384 | the mirror image of LeftRotate |
| `RbShape.RotateLeftSame` | nginx_1015/src/core/ngx_rbtree.c:327-354 | a left rotation keeps the in-order sequence of nodes |
| `RbShape.RotateRightSame` | nginx_1015/src/core/ngx_rbtree.c:357-384 | a right rotation keeps the in-order sequence of nodes |
| `RbTree.RbTree.InsertFixup` | nginx_1015/src/core/ngx_rbtree.c:49-93 | from a tree with one possible red-red clash the loop restores all red-black rules and keeps the in-order sequence |
| `RbShape.RecolourColours` | nginx_1015/src/core/ngx_rbtree.c:53-58 | a red uncle: recolouring moves the only possible clash two levels up and keeps black heights |
| `RbShape.OuterLeftColours` | nginx_1015/src/core/ngx_rbtree.c:61-64 | an inner node is first brought to the outer position, and the clash stays the only one |
| `RbShape.RaiseLeftColours` | nginx_1015/src/core/ngx_rbtree.c:66-68 | a black uncle and an outer node: one rotation and two recolourings end the repair |
| `RbTree.RbTree.Insert` | nginx_1015/src/core/ngx_rbtree.c:24-94 | keeps the red-black tree valid (black root and sentinel, no red node with a red child, equal black heights, child and parent links consistent below the root) and puts the node at the one in-order position behind every key that is not to its right |
| `RbTree.RbTree.Min` | nginx_1015/src/core/ngx_rbtree.h:79-88 | walks down the left spine to the first node in order |
| `RbTree.RbTree.Choose` | nginx_1015/src/core/ngx_rbtree.c:172-186 | the node to be bridged is the deleted node itself when it has a nil child, else its in-order successor |
| `RbTree.RbTree.Unlink` | nginx_1015/src/core/ngx_rbtree.c:204-263 | bridging the chosen node and moving the successor into the deleted node's place removes exactly that node from the in-order sequence; what is left is red-black, or one black short in the one subtree that temp heads |
| `RbTree.RbTree.DeleteFixup` | nginx_1015/src/core/ngx_rbtree.c:271-321 | from a tree that is one black short in one subtree the loop restores all red-black rules and keeps the in-order sequence |
| `RbShape.BridgeColours` | nginx_1015/src/core/ngx_rbtree.c:267-269 | bridging a red node leaves a red-black tree, bridging a black one leaves exactly one subtree one black short |
| `RbShape.FarRedLeft` | nginx_1015/src/core/ngx_rbtree.c:293-298 | a red far nephew: one rotation pays the missing black |
| `RbShape.NearRedLeft` | nginx_1015/src/core/ngx_rbtree.c:286-291 | a red near nephew is turned into a red far one |
| `RbShape.PaleSibling` | nginx_1015/src/core/ngx_rbtree.c:282-284 | two black nephews: the shortage moves one level up |
| `RbShape.RedSiblingLeft` | nginx_1015/src/core/ngx_rbtree.c:275-280 | a red sibling is turned into a black one |
| `RbShape.SiblingExists` | nginx_1015/src/core/ngx_rbtree.c:271-321 | the sibling of a subtree that is one black short is never the sentinel, so the loop may read its colour and children |
| `RbTree.RbTree.Delete` | nginx_1015/src/core/ngx_rbtree.c:158-324 | keeps the red-black tree valid and removes exactly the given node from the in-order sequence, whose other entries keep their order; the node's links and key are cleared |
| `RbShape.LogarithmicHeight` | nginx_1015/src/core/ngx_rbtree.c:11-15 | the height of every red-black tree is at most 2 log2(n + 1) |
| `RbOrder.ComparisonIsRank` | nginx_1015/src/core/ngx_rbtree.c:122-155 | inside a window shorter than half the key range the signed-difference comparison is the order of distances from the window's base, wherever the counter wraps |
| `RbOrder.InsertQueuesUp` | nginx_1015/src/core/ngx_rbtree.c:97-119 | an inserted entry stands behind every entry with an equal key and disturbs no other key |
| `RbOrder.SlotSplits` | nginx_1015/src/core/ngx_rbtree.c:97-155 | in a sorted list the position of a stable insertion is the one that the descent finds |
| `RbOrder.ReplaySorted` | nginx_1015/src/core/ngx_rbtree.c:24-324 | over any run of insertions and deletions the list stays sorted and names each node once |
| `RbOrder.FirstInFirstOut` | nginx_1015/src/core/ngx_rbtree.c:24-324 | over any run the entries with equal keys stand in order of arrival, and the entries are exactly those that arrived and were not deleted |
| `RbOrder.Run` | nginx_1015/src/core/ngx_rbtree.c:24-324 | any legal run of insertions and deletions on the heap leaves the tree holding the replayed stable sorted list; for timers the window may move from one insertion to the next |
| `RbOrder.Rebase` | nginx_1015/src/core/ngx_rbtree.c:122-155 | wherever a half circle that holds all keys is taken to begin, the order of the list is the same |
| `EventTimer.Timers.AddTimer` | nginx_1015/src/event/ngx_event_timer.h:58-99 | an armed timer stands at its deadline behind its equals, unless it was already armed within the lazy delay, when nothing changes; every other timer stays. The stored deadline is less than 300 milliseconds away from now plus the delay, on either side, and is exactly that time unless the old one was so near |
| `EventTimer.ArmedNear` | nginx_1015/src/event/ngx_event_timer.h:64-84 | in the list of timers: arming leaves the timer listed with a deadline less than 300 away from the one asked for, the old one exactly if it was so near |
| `EventTimer.Timers.DelTimer` | nginx_1015/src/event/ngx_event_timer.h:35-55 | removes exactly that timer and clears its flag |
| `EventTimer.Timers.FindTimer` | nginx_1015/src/event/ngx_event_timer.c:51-73 | no timer: infinite; else the distance to the earliest deadline, 0 when it has passed, in spite of counter wrap |
| `EventTimer.DiffIsDistance` | nginx_1015/src/event/ngx_event_timer.c:66-72 | the signed difference of two counter values in the window is the difference of their distances from the base |
| `EventTimer.Timers.ExpireTimers` | nginx_1015/src/event/ngx_event_timer.c:76-159 | on the heap: fires and leaves exactly what the expiry of the timer list says, marking as timed out exactly the events that fire |
| `EventTimer.ExpiredLeavesFuture` | nginx_1015/src/event/ngx_event_timer.c:76-159 | if handlers arm only future timers, everything fired was due and everything left is strictly in the future |
| `EventTimer.ExpiredInOrder` | nginx_1015/src/event/ngx_event_timer.c:76-159 | timers fire in order of deadline whatever the handlers arm or disarm meanwhile |
| `EventTimer.ExpiredSub` | nginx_1015/src/event/ngx_event_timer.c:76-159 | what fires is the list of due timers with perhaps some left out, so ties fire in arming order whatever the handlers arm for later or disarm |
| `EventTimer.MissedWasTouched` | nginx_1015/src/event/ngx_event_timer.c:76-159 | a due timer that does not fire was disarmed or armed anew by the handler of one that did |
| `EventTimer.Timers.Tick` | nginx_1015/src/event/ngx_event_timer.c:51-159 | the clock may move on as long as the deadlines still lie within half a circle |
| `EventTimer.QuietExpiry` | nginx_1015/src/event/ngx_event_timer.c:76-159 | with handlers that touch no timers exactly the due prefix fires, ties in arming order |
| `Shmtx.StepSafe` | nginx_1015/src/core/ngx_shmtx.c:57-177 | every single access by any process keeps the invariant: one holder exactly when bit 31 is set, sleepers equal counted waiters plus semaphore plus posts owed, and a waiter always has somebody who will wake it |
| `Shmtx.RunSafe` | nginx_1015/src/core/ngx_shmtx.c:57-177 | the invariant holds after every interleaving of any number of processes below 2^31 |
| `Shmtx.MutualExclusion` | nginx_1015/src/core/ngx_shmtx.c:57-177 | in every interleaving at most one process holds the mutex, bit 31 is set exactly when one does, and sleepers, waiter count, semaphore and owed posts balance |
| `Shmtx.SoloAcquires` | nginx_1015/src/core/ngx_shmtx.c:69-139 | a process in the lock loop that runs alone on a free lock owns it within five of its own accesses |
| `Shmtx.FreeLockIsTaken` | nginx_1015/src/core/ngx_shmtx.c:69-177 | no wakeup is lost: when the lock is free and anyone sleeps or competes, at most five accesses let a waiting process own it |
| `Shmtx.NobodySleepsForever` | nginx_1015/src/core/ngx_shmtx.c:142-177 | when everybody is idle or asleep and the semaphore is zero, nobody sleeps and the word is 0 |
| `Shmtx.UnlockFrees` | nginx_1015/src/core/ngx_shmtx.c:142-177 | a whole unlock by the holder, undisturbed: the lock bit is clear, one waiter less is counted, nothing else changes, and the process is idle, or owes a post exactly when there were waiters and a semaphore |
| `Shmtx.UnlockEnds` | nginx_1015/src/core/ngx_shmtx.c:151-160 | in any interleaving a process leaves the unlock loop only by clearing the lock bit and counting one waiter less; its compare-and-set fails only when the word has changed, and then it reads again |
| `Shmtx.PostRaises` | nginx_1015/src/core/ngx_shmtx.c:164-174 | the post that is owed raises the semaphore by one and changes nothing else |
| `Shmtx.FreeLockIsEntered` | nginx_1015/src/core/ngx_shmtx.c:57-101 | undisturbed, trylock and lock both take a free lock and leave the waiters and everybody else as they are |
| `Shmtx.HeldLockRefusesTrylock` | nginx_1015/src/core/ngx_shmtx.c:57-66 | trylock on a held lock gives up and leaves everything as it was |
| `Shmtx.HeldLockSleeps` | nginx_1015/src/core/ngx_shmtx.c:77-134 | undisturbed, a process that wants a held lock spins as often as the spin limit can be reached by doubling, then sleeps, counted as one waiter more |
| `Shmtx.WordFacts` | nginx_1015/src/core/ngx_shmtx.c:64-65 | setting bit 31, counting a waiter and releasing change the two parts of the word independently, with no carry into bit 31 below 2^31 - 1 waiters |
| `Slab.AreaFits` | nginx_1015/src/core/ngx_slab.c:84-131 | with room for three pages the page area starts after all descriptors on a page boundary, ends inside the pool, and has at least all but two of the pages planned |
| `Slab.Pool.constructor` | nginx_1015/src/core/ngx_slab.c:76-137 | an initialised pool is valid: one free run of all pages, every slot empty, nothing live |
| `Slab.Pool.FindRun` | nginx_1015/src/core/ngx_slab.c:627-629 | first fit: the first run on the free list that is long enough, or none when every free run is shorter |
| `Slab.Pool.AllocPages` | nginx_1015/src/core/ngx_slab.c:621-669 | turns the front of that run into one large allocation and leaves the rest free, or changes nothing when no run fits |
| `Slab.Pool.FreePages` | nginx_1015/src/core/ngx_slab.c:672-694 | makes a run, on a slot or on no list, the first free run |
| `Slab.Pool.MarkSmall` | nginx_1015/src/core/ngx_slab.c:206-262 | takes a free chunk of a small page by a bit of the page's own words, and knows when the page became full |
| `Slab.Pool.MarkExact` | nginx_1015/src/core/ngx_slab.c:264-297 | the same with the descriptor word as the bitmap |
| `Slab.Pool.MarkBig` | nginx_1015/src/core/ngx_slab.c:299-337 | the same with the upper half of the word as the bitmap and the shift in the lower half |
| `Slab.Pool.ClearSmall` | nginx_1015/src/core/ngx_slab.c:458-478 | gives the chunk back and knows when only the bitmap's own chunks are left |
| `Slab.Pool.ClearExact` | nginx_1015/src/core/ngx_slab.c:511-515 | the same for the descriptor word |
| `Slab.Pool.ClearBig` | nginx_1015/src/core/ngx_slab.c:552-556 | the same for the upper half of the word |
| `SlabShape.SmallFull` | nginx_1015/src/core/ngx_slab.c:240-255 | every word of a small page's bitmap is all ones exactly when every chunk is used |
| `SlabShape.SmallIdle` | nginx_1015/src/core/ngx_slab.c:460-476 | a small page's bitmap holds nothing but the reserved chunks exactly when no chunk is used |
| `SlabShape.ExactWord` | nginx_1015/src/core/ngx_slab.c:278-286 | the descriptor word is all ones exactly when the page is full, and zero exactly when it is idle |
| `SlabShape.BigWord` | nginx_1015/src/core/ngx_slab.c:299-326 | the map half equals the mask exactly when the page is full, and is zero exactly when it is idle |
| `SlabShape.SmallFresh` | nginx_1015/src/core/ngx_slab.c:347-363 | the words written to a fresh small page mark the chunks of the bitmap itself and the first chunk after it |
| `SlabShape.ChunkGeometry` | nginx_1015/src/core/ngx_slab.c:350-359 | chunks fill a page exactly and a small page's bitmap fits into the chunks reserved for it, for every shift from 3 to 11 |
| `Slab.Pool.FreshPage` | nginx_1015/src/core/ngx_slab.c:344-390 | takes one page from the free list, declares its chunks with the first one used, and hangs it on its empty slot |
| `Slab.Pool.TakeChunk` | nginx_1015/src/core/ngx_slab.c:199-341 | takes one free chunk of a page on its slot; a page that becomes full leaves the slot with no next |
| `Slab.Pool.GiveChunk` | nginx_1015/src/core/ngx_slab.c:430-570 | gives one chunk back; a full page returns to the head of its slot and a page that becomes idle becomes a free run |
| `Slab.SlotFacts` | nginx_1015/src/core/ngx_slab.c:196-344 | the page a slot points to always has a free chunk, so the walk over the slot stops at the first page; an empty slot means that no page of that size has room |
| `Slab.Pool.ShiftFor` | nginx_1015/src/core/ngx_slab.c:179-182 | the shift of the smallest power of two that is at least the size |
| `Slab.Pool.AllocLocked` | nginx_1015/src/core/ngx_slab.c:156-399 | refines a map from addresses to sizes: makes exactly one new address live, with room of at least the size and less than twice it (or the pool's minimum, or whole pages); when it fails nothing changes and no free run and no page of that size has room |
| `Slab.Pool.FreeLocked` | nginx_1015/src/core/ngx_slab.c:413-618 | given a live address and nothing else, makes exactly that address dead, under all three encodings and for large allocations; no error branch is taken |
| `Slab.PageCountCovers` | nginx_1015/src/core/ngx_slab.c:168-169 | the page count computed in 64-bit arithmetic covers the request exactly when rounding up does not wrap |
| `Slab.Pool.Store` | nginx_1015/src/core/ngx_slab.c:156-399 | a client that writes any word inside memory it was given leaves the pool valid: no bitmap is overwritten |
| `Slab.LiveIsApart` | nginx_1015/src/core/ngx_slab.c:156-618 | in every valid pool live allocations lie inside the page area, overlap neither each other nor the in-page bitmap of a small page |
| `Slab.SlotsHoldTheirPages` | nginx_1015/src/core/ngx_slab.c:199-390 | a slot holds, as a well-formed ring, exactly the pages of its chunk size with at least one used and one free chunk; full pages have next NULL |
| `Slab.PagesConserved` | nginx_1015/src/core/ngx_slab.c:621-694 | the lengths of free runs, large runs and chunk pages always add up to the initial page count |
| `SlabShape.RunOf` | nginx_1015/src/core/ngx_slab.c:621-694 | every page belongs to exactly one run |
| `SlabShape.LiveApart` | nginx_1015/src/core/ngx_slab.c:156-399 | two live allocations never overlap, whatever runs they come from |
| `SlabState.BypassRing` | nginx_1015/src/core/ngx_slab.c:687-691 | joining the neighbours of a page removes exactly that page from its circular list |
| `SlabState.PushRing` | nginx_1015/src/core/ngx_slab.c:672-694 | pushing a page puts it at the head of the circular list |
| `SlabState.SplitRun` | nginx_1015/src/core/ngx_slab.c:631-640 | splitting a free run puts the rest in its place on the free list and keeps the tiling of the page area |
| `Slab.Serve` | nginx_1015/src/core/ngx_slab.c:156-618 | whatever a client allocates and releases, in any order, it holds exactly the live addresses, each with at least the size asked for, none overlapping |
| `Bits.HighBits` | nginx_1015/src/core/ngx_slab.c:299-315 | setting, clearing and testing a bit above k lower bits acts on the upper part alone |
| `Queue.InsertAfter` | nginx_1015/src/core/ngx_queue.h:36-43 | the ring holds the old elements with the new one in the given place |
| `Queue.Remove` | nginx_1015/src/core/ngx_queue.h:77-93 | the ring holds the old elements without the removed one |
| `Queue.InsertTail` | nginx_1015/src/core/ngx_queue.h:46-50 | the ring holds the old elements followed by the new one |
| `Queue.Split` | nginx_1015/src/core/ngx_queue.h:97-103 | the first ring keeps the elements before q, the second gets q and those behind it |
| `Queue.Add` | nginx_1015/src/core/ngx_queue.h:106-110 | the ring holds its own elements followed by those of the other, non-empty one |
| `Queue.Middle` | nginx_1015/src/core/ngx_queue.c:20-47 | for n elements the one at index n / 2, and the header for none |
| `Queue.Sort` | nginx_1015/src/core/ngx_queue.c:55-87 | leaves a well-formed ring whose elements are the stable sorted permutation of the old ones, for any total preorder |
| `Queue.SinkIn` | nginx_1015/src/core/ngx_queue.c:76-86 | the inner loop goes back over exactly the greater elements and inserts behind the rest |
| `Queue.InsertStable` | nginx_1015/src/core/ngx_queue.c:76-86 | inserting behind the last element that is not greater keeps the sort sorted, a permutation, and stable |
| `Queue.StableSortUnique` | nginx_1015/src/core/ngx_queue.c:50-52 | there is only one stable sort of a sequence of distinct elements |
| `Radix.Tree.Find` | nginx_1015/src/core/ngx_radix_tree.c:260-287 | returns the value of the longest bound prefix of the key |
| `Radix.LongestMeans` | nginx_1015/src/core/ngx_radix_tree.c:260-287 | that value is bound to a prefix of which no longer one is bound, and is no value exactly when no prefix is bound |
| `Radix.PrefixMeans` | nginx_1015/src/core/ngx_radix_tree.c:130-147 | a path is the number without its last bits: two keys lead along the same first n steps exactly when they agree once their last 32 - n bits are dropped, the most significant bit coming first |
| `Radix.ContiguousMeans` | nginx_1015/src/core/ngx_radix_tree.c:134-147 | the masks meant are exactly the numbers 2^32 - 2^(32 - n) |
| `Radix.Tree.Insert` | nginx_1015/src/core/ngx_radix_tree.c:122-188 | BUSY exactly when the prefix is bound, and then nothing changes; otherwise exactly that binding is added; a tree whose leaves all carry values keeps that property |
| `Radix.Tree.Delete` | nginx_1015/src/core/ngx_radix_tree.c:191-255 | removes exactly that binding; an error exactly when there is no such node, or it is an inner node without a value; every node that no longer leads to a binding goes to the free list and no other node moves |
| `Radix.Tree.Prune` | nginx_1015/src/core/ngx_radix_tree.c:225-252 | cuts off the leaf and then every node above it that is left without children or value, up to the root |
| `Radix.Tree.Alloc` | nginx_1015/src/core/ngx_radix_tree.c:292-318 | reuses the first recycled node, or else makes a new one |
| `Radix.TidyLeads` | nginx_1015/src/core/ngx_radix_tree.c:225-252 | in a tree whose leaves all carry values every node but the root leads to a binding |
| `Radix.Tree.constructor` | nginx_1015/src/core/ngx_radix_tree.c:22-51 | an empty tree: a root without a value and no recycled nodes |
| `Radix.Tree.Run` | nginx_1015/src/core/ngx_radix_tree.c:122-284 | any run of insertions, deletions and lookups is answered as by a table of bindings, with the status of each and the value of the longest bound prefix, and leaves the tree holding that table |
| `Gmtime.Gmtime` | nginx_1015/src/core/ngx_times.c:278-368 | for every t the one valid Gregorian date and time that lies t seconds after the start of 1970, with the right day of the week |
| `Gmtime.Estimate` | nginx_1015/src/core/ngx_times.c:315-317 | the year estimate is never too small and at most one too large |
| `Gmtime.Corrected` | nginx_1015/src/core/ngx_times.c:317-323 | after the correction the year and the day in it are exact |
| `Gmtime.MonthPlace` | nginx_1015/src/core/ngx_times.c:333-357 | the empirical month and day formulas agree with the counted calendar for all 366 days |
| `Gmtime.SameTime` | nginx_1015/src/core/ngx_times.c:278-368 | no two valid dates and times have the same second count |
| `Gmtime.YearStartMarch` | nginx_1015/src/core/ngx_times.c:304-305 | the closed form of the days before a year agrees with adding up the years since 1970 |
| `ConfToken.ConfFile.ReadToken` | nginx_1015/src/core/ngx_conf_file.c:453-764 | unless it reports a too long parameter, the words, the outcome, the line and the place where reading stops are those of the automaton run over the whole file at once, wherever the buffer ends fall; it reports one exactly if that run comes a full buffer beyond the last token start while the file goes on |
| `ConfToken.BlanksTooLong` | nginx_1015/src/core/ngx_conf_file.c:512-534 | a word, be it one letter, and blanks up to beyond the buffer pass for a too long parameter |
| `ConfToken.CommentTooLong` | nginx_1015/src/core/ngx_conf_file.c:512-534 | so does a comment that does not end within a buffer |
| `ConfToken.DoneExactly` | nginx_1015/src/core/ngx_conf_file.c:488-508 | a regular end of the file is reported exactly when the file ends before any word is completed |
| `ConfToken.PendingWordIsDone` | nginx_1015/src/core/ngx_conf_file.c:488-508 | so it is in the middle of the first word of a directive |
| `ConfToken.ConfFile.Refill` | nginx_1015/src/core/ngx_conf_file.c:536-563 | moving the rest of the token to the front and reading on keeps every character in place relative to the file |
| `ConfToken.ConfFile.Fetch` | nginx_1015/src/core/ngx_conf_file.c:488-564 | end of file, too long, or a character to read, without losing the place |
| `ConfToken.ConfFile.Consume` | nginx_1015/src/core/ngx_conf_file.c:566-762 | one character from the buffer does to flags, token start, line and words what it does to the automaton over the file |
| `ConfToken.CopyWord` | nginx_1015/src/core/ngx_conf_file.c:718-750 | the copying loop yields the word that the text spells, escapes resolved |
| `ConfToken.DirectiveRead` | nginx_1015/src/core/ngx_conf_file.c:566-764 | what is written is what is read: for all words, bare or in either quotes, with \t, \r and \n for those characters, backslashes before quotes and themselves, and blanks and comments between them, the words come back, the lines are counted, and the answer is NGX_OK behind ';', a block start behind '{', a block end for '}' alone and an error for '}' behind words or for ';' or '{' without any |
| `ConfToken.QuotingRoundTrip` | nginx_1015/src/core/ngx_conf_file.c:686-757 | any word at all, escaped, put in double or single quotes and followed by a semicolon, is read back as the only argument, unchanged |
| `ConfToken.BehindQuotes` | nginx_1015/src/core/ngx_conf_file.c:585-608 | behind a quoted word a blank leads on, ';' and '{' end the directive, ')' is read as if a blank stood before it, and anything else is an error |
| `ConfToken.BraceBehindDollar` | nginx_1015/src/core/ngx_conf_file.c:663-684 | "a${name};" is one word, but a word that begins with "${" ends there and starts a block |
| `ConfToken.TrackStep` | nginx_1015/src/core/ngx_conf_file.c:566-762 | feeding one more character to a state that the automaton reaches gives the next state it reaches, or its outcome |
| `OutputChain.Chain.Output` | nginx_1015/src/core/ngx_output_chain.c:41-215 | for any filter that consumes in order: what was sent, what the filter holds and what still waits are together, in order, all bytes and all special buffers ever submitted, none lost, repeated or moved past another; when something still waits and the filter did not fail, the first waiting buffer has to be copied, all buffers for copies are in use and the answer is NGX_AGAIN |
| `OutputChain.Chain.Feed` | nginx_1015/src/core/ngx_output_chain.c:41-215 | over any number of calls: what the filter sent, what it holds and what waits are together, in order, the bytes and special buffers of all calls; once nothing is held or waits everything has been sent |
| `OutputChain.Chain.Pump` | nginx_1015/src/core/ngx_output_chain.c:78-214 | the same for the loop alone, which always ends |
| `OutputChain.Chain.Gather` | nginx_1015/src/core/ngx_output_chain.c:90-195 | moves waiting buffers and bytes to the leaving buffers without changing the stream, no read-only one when the filter needs to write; it gathers nothing only when nothing waits or the first buffer has to be copied and all buffers for copies are in use |
| `OutputChain.Chain.PassOn` | nginx_1015/src/core/ngx_output_chain.c:99-133 | an empty waiting buffer is dropped unless it is special, one that needs no copy passed on, and the stream of bytes and special buffers is unchanged |
| `OutputChain.Chain.CopyOn` | nginx_1015/src/core/ngx_output_chain.c:135-194 | copies into a recycled or new buffer that nobody holds, or stops when there is none to be had |
| `OutputChain.Chain.GetBuf` | nginx_1015/src/core/ngx_output_chain.c:381-454 | a new empty buffer of the configured size, or of the size of the last buffer of a chain if that is smaller, or less than a quarter larger when a single buffer is allowed |
| `OutputChain.CopyBuf` | nginx_1015/src/core/ngx_output_chain.c:457-509 | as much of the source as fits goes to the destination and leaves the source, in order; either the source is then empty or the destination full |
| `OutputChain.Chain.UpdateChains` | nginx_1015/src/core/ngx_buf.c:183-218 | a buffer is emptied for another use only when nothing of it is left, so none that the filter holds is overwritten |
| `OutputChain.RecycleApart` | nginx_1015/src/core/ngx_buf.c:200-217 | an exhausted buffer of the chain is held neither by the filter nor twice |
| `OutputChain.Chain.AddCopy` | nginx_1015/src/core/ngx_output_chain.c:262-328 | new buffers wait behind those that wait already |
| `OutputChain.Filter.Call` | nginx_1015/src/core/ngx_output_chain.c:206 | the environment: any consumption in order, with any status; a filter that writes into its buffers demands that none is read-only |
| `PackedHash.Init` | nginx_1015/src/core/ngx_hash.c:248-455 | fails exactly when a name does not fit a bucket or every size below the maximum leaves some bucket too small; above 10000 and below a hundred sizes a name, only the last thousand sizes count, and with names gone from the list only those from the whole list's share on. Otherwise the table has the smallest such size, every bucket begins with a cache line and holds its entries in list order, packed without overlap, with a null pointer behind them |
| `PackedHash.RoomyIsTried` | nginx_1015/src/core/ngx_hash.c:276-284 | by counting: an entry takes two words at least, so no size before the first one tried leaves every bucket room enough |
| `PackedHash.GoneNamesCount` | nginx_1015/src/core/ngx_hash.c:276-296 | names that are gone count in the start of the search: enough of them and no size is tried, although every size would do |
| `PackedHash.LowerMeans` | nginx_1015/src/core/ngx_string.h:47 | lower-casing turns the 26 letters and leaves everything else |
| `PackedHash.Hash.Find` | nginx_1015/src/core/ngx_hash.c:12-50 | walks the packed bytes of a bucket to the first entry with that name, and to nothing else |
| `PackedHash.FindListed` | nginx_1015/src/core/ngx_hash.c:12-50 | the whole table answers with the value of the first listed entry whose lower-case name is asked for, else with nothing |
| `PackedHash.BucketDecides` | nginx_1015/src/core/ngx_hash.c:12-50 | searching one bucket finds what searching the whole list finds, when hash values are taken over lower-case names |
| `PackedHash.SameStride` | nginx_1015/src/core/ngx_hash.c:42-44 | the reader's rounded step from entry to entry is the writer's NGX_HASH_ELT_SIZE |
| `PackedHash.Fits` | nginx_1015/src/core/ngx_hash.c:285-313 | the pass accepts a size exactly when no 16-bit counter is seen above the limit |
| `PackedHash.CountingRight` | nginx_1015/src/core/ngx_hash.c:285-313 | for limits below 32768 the pass accepts exactly the sizes at which every bucket has room |
| `PackedHash.CountingExact` | nginx_1015/src/core/ngx_hash.c:285-313 | whether for all lists and sizes the pass accepts exactly those that leave room: yes for limits below 32768, no for every other limit |
| `PackedHash.FindSize` | nginx_1015/src/core/ngx_hash.c:278-323 | the first size, from the start size on, that the counting pass accepts, for any limit |
| `PackedHash.AddUp` | nginx_1015/src/core/ngx_hash.c:340-350 | the rounded bucket sizes add up to the memory that is needed |
| `PackedHash.Fill` | nginx_1015/src/core/ngx_hash.c:389-407 | after the last pass over the names every bucket holds its entries, in list order and intact |
| `PackedHash.FilledSame` | nginx_1015/src/core/ngx_hash.c:398-406 | an entry that is written behind those of its bucket damages no entry of any bucket |
| `PackedHash.Disjoint` | nginx_1015/src/core/ngx_hash.c:377-387 | the memory of two buckets does not overlap |
| `PackedHash.WrongCount` | nginx_1015/src/core/ngx_hash.c:294-305 | from 32768 on copies of one long name are accepted although their bucket overflows, or refused although it does not; two are enough below 65536 |
| `Wildcard.Init` | nginx_1015/src/core/ngx_hash.c:458-600 | for sorted, well-formed names no two of which are for the same host name, the nested tables answer every host name with the value of its longest matching name, or with nothing when none matches |
| `Wildcard.FindCell` | nginx_1015/src/core/ngx_hash.c:567-600 | finding a label in a packed table of cells, whose labels are in lower case, is looking it up in the list of cells |
| `Wildcard.FindHead` | nginx_1015/src/core/ngx_hash.c:52-143 | the walk from the last label is the answer that the tables define |
| `Wildcard.LongestPattern` | nginx_1015/src/core/ngx_hash.c:52-143 | in terms of the patterns as written: the answer is the value of the longest pattern that covers the host name, and there is none exactly when no pattern covers it |
| `Wildcard.ReversedMeans` | nginx_1015/src/core/ngx_hash.c:872-907 | a reversed name matches exactly what its pattern covers: proper subdomains for "*.d", also d itself for ".d" |
| `Wildcard.Reverse` | nginx_1015/src/core/ngx_hash.c:872-907 | the loop yields the labels of the pattern in reverse order, with a final dot for "*.d" |
| `Wildcard.GroupFound` | nginx_1015/src/core/ngx_hash.c:539-549 | comparing with the first name of a group up to the dot finds all names with that first label and no other, because they stand together in the order |
| `Wildcard.GroupBest` | nginx_1015/src/core/ngx_hash.c:567-589 | the entry made of a group answers, for names with that last label, with the best match of the group |
| `Wildcard.ShiftedBest` | nginx_1015/src/core/ngx_hash.c:581-583 | the best match one label further on is the best one here; without one the name that ends here steps in |
| `Wildcard.RestsGood` | nginx_1015/src/core/ngx_hash.c:522-565 | what a group leaves once its first label is taken away is again sorted and free of conflicts |
| `Wildcard.Between` | nginx_1015/src/core/ngx_hash.c:539-542 | names between two with a common beginning share it |
| `Wildcard.DeeperIsLonger` | nginx_1015/src/core/ngx_hash.c:52-143 | of two names that match the same host name the one with more labels has the longer domain |
| `FileCache.Cache.OpenCachedFile` | nginx_1015/src/core/ngx_open_file_cache.c:130-460 | which entry answers: one that is current answers as it is, with the same descriptor, and tree and open descriptors stay; another one takes over what the system calls find and is kept, reopened or replaced by a new entry as kind, number and users demand; an unknown name gets a new entry exactly if what was found is to be cached and there is memory. The queue is then that entry, if any, before all others in their old order and unchanged, but for the last ones, which leave only when the cache is full: the least recently used one and at most two idle ones. Valid again exactly unless the number of an open file turns up on a directory; a descriptor is lost exactly when a file is replaced and put back between stat and open. No entry answers that was renewed longer ago than the request allows or has another number than it asks for, and one that may answer does so without a system call. The entry that answers carries number, kind, modification time and size as the last successful system call gave them, from fstat when the file was opened, from stat when it was only compared, from either for a directory; on a hit they stay what they were, and with the uses one higher they are the caller's answer |
| `FileCache.Cache.Compare` | nginx_1015/src/core/ngx_open_file_cache.c:266-328 | nothing cached but a kind, or the same file: the entry is renewed; else without users its descriptor is closed and it takes the new one; else it leaves the tree and stays with its users, and a new entry answers if there is memory |
| `FileCache.Cache.Detach` | nginx_1015/src/core/ngx_open_file_cache.c:321-327 | an entry in use whose file has changed leaves the tree, stays with its users, and a new entry takes its place |
| `FileCache.Cache.Create` | nginx_1015/src/core/ngx_open_file_cache.c:338-425 | a new entry goes in front; if the cache is full the last of the queue and at most two idle ones before it leave, and no other; without memory the new descriptor is closed again |
| `FileCache.Cache.Fail` | nginx_1015/src/core/ngx_open_file_cache.c:427-459 | an entry that cannot be reopened is freed with its descriptor, or left to its users |
| `FileCache.Cache.OpenAndStat` | nginx_1015/src/core/ngx_open_file_cache.c:463-574 | every descriptor that is opened and not passed on is closed again |
| `FileCache.Cache.Cleanup` | nginx_1015/src/core/ngx_open_file_cache.c:646-657 | a user less: its descriptor is closed exactly when nobody uses the entry any more and it is detached or was rarely used (the time to be idle not being negative); a detached entry is freed with its last user, and no other user notices |
| `FileCache.Cache.CloseCachedFile` | nginx_1015/src/core/ngx_open_file_cache.c:660-703 | a descriptor is closed only when the count is zero and the entry is detached or was not used often enough; a detached entry is then gone |
| `FileCache.Cache.ExpireOld` | nginx_1015/src/core/ngx_open_file_cache.c:723-771 | removes a run of entries from the end of the queue: the first in any case when forced, the others only if they have been idle for too long, and it stops only at one that has not, or after two of them |
| `FileCache.Cache.Lookup` | nginx_1015/src/core/ngx_open_file_cache.c:815-853 | finds the entry of that name exactly if there is one, whatever the shape of the search tree |
| `FileCache.Cache.TreeInsert` | nginx_1015/src/core/ngx_open_file_cache.c:774-812 | puts the entry where the order by hash and name wants it |
| `FileCache.Cache.HandlesOpen` | nginx_1015/src/core/ngx_open_file_cache.c:130-460 | in every valid state the count of an entry is the number of descriptors it has handed out, all of them are open, and no two entries own the same one |
| `FileCache.Cache.EveryDescriptorOwned` | nginx_1015/src/core/ngx_open_file_cache.c:130-460 | in every valid state an open descriptor that is not lost belongs to some entry |
| `FileCache.Cache.SameEntries` | nginx_1015/src/core/ngx_open_file_cache.c:130-460 | in every valid state the tree and the queue hold the same entries, under different names, as many as current says and at most max |
| `FileCache.Cache.LeastRecent` | nginx_1015/src/core/ngx_open_file_cache.c:732-750 | what is taken from the end of the queue was not used later than anything that stays, under a clock that does not run backwards |
| `FileCache.Cache.MakeRoom` | nginx_1015/src/core/ngx_open_file_cache.c:340-342 | below the limit nothing is expired; at the limit the last of the queue is, and up to two before it that have been idle for too long, until one is not |
| `FileCache.Cache.Serve` | nginx_1015/src/core/ngx_open_file_cache.c:130-460 | any run of requests to open and to give back, with any replies of the system but those that spoil the cache, from any state where the callers have what is handed out: the cache is valid throughout, the count of each entry is the number of descriptors that callers have from it, all of these are open, and a detached entry is there only while somebody has one of its descriptors; every entry without an error carries number, kind, time and size of the last reply that was taken for its name |
| `FileCache.Cache.Steady` | nginx_1015/src/core/ngx_open_file_cache.c:646-703 | what the callers have and what the entries count agree: no descriptor in use is closed and no entry without users is detached |
| `FileCache.ReusedHappens` | nginx_1015/src/core/ngx_open_file_cache.c:272-328 | two requests after which an entry for a directory has a file's descriptor and the cache is no longer valid |
| `FileCache.RacedHappens` | nginx_1015/src/core/ngx_open_file_cache.c:286-294 | two requests after which a descriptor is open that no entry has |
| `FileCache.GiveUp` | nginx_1015/src/core/ngx_open_file_cache.c:686-695 | closing the descriptor of an entry without users leaves every descriptor that is handed out open |
| `Inet.RoundTrip` | nginx_1015/src/core/ngx_inet.c:62-175 | every address is read back from its text as itself, but for the two whose text ends in .255.255.255.255, which are refused |
| `Inet.Inet6Ntop` | nginx_1015/src/core/ngx_inet.c:279-353 | prints the address with its leftmost longest run of zero groups shortened, within the buffer; too small a buffer is left alone |
| `Inet.FindRun` | nginx_1015/src/core/ngx_inet.c:290-316 | finds the leftmost longest run of two or more zero groups |
| `Inet.Inet6Addr` | nginx_1015/src/core/ngx_inet.c:62-175 | reads the text into the sixteen bytes, or refuses it, as the reading of its characters one by one says; no byte is written outside |
| `Inet.Spread` | nginx_1015/src/core/ngx_inet.c:156-166 | the bytes behind "::" move to the end and zeros fill the gap |
| `Inet.InetAddr` | nginx_1015/src/core/ngx_inet.c:17-57 | one dotted quad, character by character |
| `Inet.QuadReads` | nginx_1015/src/core/ngx_inet.c:17-57 | four strings of decimal digits with dots between them are accepted exactly when each number, as 64 bits keep it, is below 256, and then stand for the address they spell; no digits stand for zero |
| `Inet.QuadRefuses` | nginx_1015/src/core/ngx_inet.c:28-48 | a text with a character that is neither a digit nor a dot, or without exactly three dots, is refused, and any other text is four strings of digits with dots between them |
| `Inet.CaseBlind` | nginx_1015/src/core/ngx_inet.c:62-175 | texts that differ only in the case of hexadecimal digits read the same |
| `Inet.ForeignRefused` | nginx_1015/src/core/ngx_inet.c:131-147 | a text with anything but hexadecimal digits, colons and dots is refused |
| `Inet.NibbleMeans` | nginx_1015/src/core/ngx_inet.c:131-147 | the digits are exactly 0 to 9, a to f and A to F, with the values that the printer's digits have |
| `Inet.ReadGroups` | nginx_1015/src/core/ngx_inet.c:85-147 | from any group on, reading the printed groups yields the address again |
| `Inet.ReadDotted` | nginx_1015/src/core/ngx_inet.c:113-128 | a dotted tail is read from where its group begins, unless it is the quad that stands for an error |
| `Inet.DottedWhen` | nginx_1015/src/core/ngx_inet.c:321-331 | the two refused addresses are printed with a dotted tail, whatever the longest run is found to be |

## Left out

- Red-black tree: the two insertion procedures are one method with the order as a parameter (`RbTree.RbTree.InsertBinary`), and the byte `data` of a node is not modelled.
- Red-black tree, timers: the threaded branches, the debug clearing of links and logging.
- Timers: handlers that arm a timer without delay, with which `EventTimer.Timers.ExpireTimers` need not end.
- Timers: a handler is a finite list of arm and disarm calls fixed beforehand, and the step from a tree node back to its event is a map instead of pointer arithmetic.
- Mutex: the file-lock branch, semaphore failures other than an interrupted wait, and the pauses of a spinning process; only a holder unlocks, as the callers in ngx_slab.c do.
- Mutex: the accept mutex's use in the worker loop, which can call unlock with a stale flag.
- Shmtx.HeldLockSleeps: not for a spin limit above 2^63, where the doubled count wraps to zero and the process spins on without sleeping.
- Slab: freeing an address that is not live (the code reports some such calls and not others), so `Slab.Pool.FreeLocked` asks for a live address.
- Slab: requests so large that rounding up to pages wraps in 64 bits; `Slab.PageCountCovers` says that the page count is then too small.
- Slab: minimum shifts below 3 or above 11, for which the source's own bitmap arithmetic does not hold, and page sizes other than 4096; the word size is 64 bits.
- Slab: a pointer is a reference into a table of descriptors and the two low bits of prev are a separate tag; in-page words are kept as 512 words per page.
- Slab: the walk over further pages of a slot, which `Slab.SlotFacts` shows never happens; debug junk filling and logging; the mutex around the two operations.
- Queue: taking the enclosing record from a link (offsetof).
- Radix tree: preallocated nodes, failing allocation, and deletion of a childless root, which reads the root's absent parent; keys and masks are words read bit by bit and a mask must be contiguous.
- `ngx_gmtime`: overflow of 64-bit intermediate results for times beyond any calendar in use, and the narrowing of the result fields.
- Tokenizer: failing and short reads, the log messages, directive dispatch, includes and the setters.
- Output chain: buffers in files, sendfile, direct and asynchronous I/O, the flags a copy inherits, failing allocation, the links of the chains (chains are sequences) and the pool's list of spare links; a submitted buffer must not be in flight already.
- The other files of the repository: the event loop and connections, files, logging, the resolver and TLS, dominated by system calls, and the demonstration modules, which have no deep properties.
- Hash: bucket sizes from 32776 bytes on, for which `PackedHash.Init` is not stated, because the counting pass is then wrong (`PackedHash.CountingExact`); a hash without names and with buckets too small for one, where the code divides by zero; failing allocation; where the memory of the hash itself lies.
- Hash, wildcards: `Wildcard.Init` keeps the cells of a table as a list and looks for the first one with a label, which is what `Wildcard.FindCell` shows the packed table to do; that packing a level may fail is left to `PackedHash.Init`; the tag bits of a value pointer are constructors.
- Wildcards: names with the wildcard at the end (ngx_hash_find_wc_tail), the combined lookup, the conflict checks and lower-casing of ngx_hash_add_key, the comparison with which the caller sorts the names (it ranks the dot lowest), and domains with an empty label, such as one with a final dot.
- Open-file cache: events on files, read-ahead, direct I/O, requests without a cache, testing only, the clean-up of the whole cache, a failing registration of a clean-up handler; 24-bit wrap of the count of users, and the descriptors of other parts of the process.
- Open-file cache: the search tree is the sequence of its entries and a descent compares any entry that is still possible; a closed descriptor's number can be given out again by the system.
- IPv4 and IPv6 text: byte order, the printing of socket addresses with ports, and what the parser makes of texts that the printer never yields, beyond agreement with `Inet.Parsed`.
